/** Turning the parsed draft into the article: each section's body is rendered by the
    final model (with one shortened retry and a fixed placeholder), the sections are
    numbered `sec-1`, `sec-2`, ... with the checklist last, the table of contents gets one
    entry per rendered section, and the finished page must pass three checks before it
    is written. The model's answers are a parameter; the page template and the final
    regex patches are outside this module. */
module Assembly {
  import opened Text
  import Fragments
  import opened MarkdownSections

  /** What callText hands back: the trimmed output text and whether the response status
      was "incomplete". The model's answers are a function of the request and of a flag
      that is `true` for the shortened retry. */
  datatype Response = Response(text: string, incomplete: bool)

  /** What goes into a section prompt. */
  datatype SectionRequest = SectionRequest(heading: string, bodyMd: string, published: string, title: string, sectionIndex: nat)

  /** The rendered inner HTML of a section and how many model calls it took. */
  datatype Rendered = Rendered(html: string, calls: nat)

  datatype TocItem = TocItem(id: string, caption: string)

  datatype Assembled = Assembled(toc: seq<TocItem>, sectionsHtml: seq<string>, checklistHtml: string)

  const Placeholder: string := "<p>（生成に失敗しました。後で追記してください）</p>"

  // ---------------------------------------------------------------------------
  // renderSectionInnerHtml
  // ---------------------------------------------------------------------------

  /** The first answer is kept when its cleaned fragment is non-empty and the response
      is complete; otherwise the shortened request is sent once, and its cleaned fragment
      is kept unless it is empty, in which case the placeholder stands in. */
  function RenderSection(req: SectionRequest, respond: (SectionRequest, bool) -> Response): (r: Rendered)
    ensures 1 <= r.calls <= 2 && r.html != []
  {
    var first := respond(req, false);
    var frag := Fragments.SanitizeFragmentHtml(first.text);
    if frag != [] && !first.incomplete then Rendered(frag, 1)
    else
      var frag2 := Fragments.SanitizeFragmentHtml(respond(req, true).text);
      Rendered(if frag2 != [] then frag2 else Placeholder, 2)
  }

  /** The retry request is sent exactly when the first answer is unusable, and then
      the outcome is the retry's fragment or, failing that, the placeholder. */
  lemma {:induction false} RenderSectionPolicy(req: SectionRequest, respond: (SectionRequest, bool) -> Response)
    ensures var r := RenderSection(req, respond);
      var frag := Fragments.SanitizeFragmentHtml(respond(req, false).text);
      var frag2 := Fragments.SanitizeFragmentHtml(respond(req, true).text);
      && (r.calls == 1 <==> frag != [] && !respond(req, false).incomplete)
      && (r.calls == 1 ==> r.html == frag)
      && (r.calls == 2 ==> r.html == (if frag2 != [] then frag2 else Placeholder))
  {
  }

  /** A section's HTML is the placeholder or a piece cut out of one of the two answers. */
  lemma {:induction false} RenderedComesFromModel(req: SectionRequest, respond: (SectionRequest, bool) -> Response)
    ensures var r := RenderSection(req, respond);
      || r.html == Placeholder
      || Fragments.IsInfix(r.html, respond(req, false).text)
      || Fragments.IsInfix(r.html, respond(req, true).text)
  {
  }

  /** When the first answer is usable the retry answer is never looked at. */
  lemma {:induction false} RenderIgnoresRetryWhenFirstUsable(req: SectionRequest, respond: (SectionRequest, bool) -> Response, other: (SectionRequest, bool) -> Response)
    requires other(req, false) == respond(req, false)
    requires Fragments.SanitizeFragmentHtml(respond(req, false).text) != [] && !respond(req, false).incomplete
    ensures RenderSection(req, respond) == RenderSection(req, other)
  {
  }

  // ---------------------------------------------------------------------------
  // Section numbering and the table of contents
  // ---------------------------------------------------------------------------

  /** `sec-<n>`. */
  function SectionId(n: nat): (id: string)
  {
    "sec-" + NatToString(n)
  }

  lemma {:induction false} SectionIdInjective(m: nat, n: nat)
    requires m != n
    ensures SectionId(m) != SectionId(n)
  {
    NatToStringInjective(m, n);
    assert SectionId(m)[4..] == NatToString(m);
    if |SectionId(m)| == |SectionId(n)| {
      assert SectionId(n)[4..] == NatToString(n);
    }
  }

  /** The section element wrapped around a rendered body (the source's template literal,
      trimmed). */
  function SectionHtml(id: string, heading: string, inner: string): (r: string)
    ensures StartsWith(r, SectionOpen(id)) && EndsWith(r, "</section>")
  {
    SectionOpen(id) + "\n        <h3>" + Fragments.EscapeHtml(heading) + "</h3>\n        " + inner + "\n      </section>"
  }

  /** The opening tag of a section element. */
  function SectionOpen(id: string): string {
    "<section id=\"" + id + "\">"
  }

  /** The request for section number `no`. */
  function Request(s: Section, no: nat, published: string, title: string): SectionRequest {
    SectionRequest(s.heading, s.body, published, title, no)
  }

  /** Section number `no`, rendered and wrapped. */
  function SectionBlock(s: Section, no: nat, published: string, title: string, render: SectionRequest -> string): string {
    SectionHtml(SectionId(no), s.heading, render(Request(s, no, published, title)))
  }

  /** The table-of-contents entry of main section `k` (number `k + 1`). */
  function TocEntry(mains: seq<Section>, k: nat): TocItem
    requires k < |mains|
  {
    TocItem(SectionId(k + 1), mains[k].heading)
  }

  /** The entries of the first `n` main sections. */
  function MainToc(mains: seq<Section>, n: nat): (toc: seq<TocItem>)
    requires n <= |mains|
    ensures |toc| == n
  {
    seq(n, k requires 0 <= k < n => TocEntry(mains, k))
  }

  /** The HTML of the first `n` main sections. */
  function MainBlocks(mains: seq<Section>, n: nat, published: string, title: string, render: SectionRequest -> string): (blocks: seq<string>)
    requires n <= |mains|
    ensures |blocks| == n
  {
    seq(n, k requires 0 <= k < n => SectionBlock(mains[k], k + 1, published, title, render))
  }

  lemma {:induction false} MainTocStep(mains: seq<Section>, i: nat, next: nat)
    requires i < |mains| && next == i + 1
    ensures MainToc(mains, next) == MainToc(mains, i) + [TocEntry(mains, i)]
  {
  }

  lemma {:induction false} MainBlocksStep(mains: seq<Section>, i: nat, next: nat, published: string, title: string, render: SectionRequest -> string)
    requires i < |mains| && next == i + 1
    ensures MainBlocks(mains, next, published, title, render)
      == MainBlocks(mains, i, published, title, render) + [SectionBlock(mains[i], next, published, title, render)]
  {
  }

  /** The table of contents, the main sections' HTML and the checklist's HTML that the
      loop in main produces for a parsed draft. */
  function Assemble(parsed: ParsedDraft, published: string, title: string, render: SectionRequest -> string): (a: Assembled)
    ensures |a.sectionsHtml| == |parsed.mainSections|
    ensures |a.toc| == |parsed.mainSections| + (if parsed.checklist.Some? then 1 else 0)
    ensures a.checklistHtml == "" <==> parsed.checklist.None?
  {
    var mains := parsed.mainSections;
    var n := |mains|;
    Assembled(
      MainToc(mains, n) + (if parsed.checklist.Some? then [TocItem(SectionId(n + 1), parsed.checklist.value.heading)] else []),
      MainBlocks(mains, n, published, title, render),
      if parsed.checklist.Some? then SectionBlock(parsed.checklist.value, n + 1, published, title, render) else "")
  }

  method AssembleSections(parsed: ParsedDraft, published: string, title: string, render: SectionRequest -> string)
    returns (a: Assembled)
    ensures a == Assemble(parsed, published, title, render)
  {
    var mains := parsed.mainSections;
    var toc: seq<TocItem> := [];
    var sectionsHtml: seq<string> := [];
    var i := 0;
    while i < |mains|
      invariant i <= |mains|
      invariant toc == MainToc(mains, i)
      invariant sectionsHtml == MainBlocks(mains, i, published, title, render)
    {
      var secNo := i + 1;
      var id := SectionId(secNo);
      var heading := mains[i].heading;
      MainTocStep(mains, i, secNo);
      toc := toc + [TocItem(id, heading)];
      var inner := render(SectionRequest(heading, mains[i].body, published, title, secNo));
      MainBlocksStep(mains, i, secNo, published, title, render);
      sectionsHtml := sectionsHtml + [SectionHtml(id, heading, inner)];
      i := secNo;
    }
    var checklistHtml := "";
    if parsed.checklist.Some? {
      var cl := parsed.checklist.value;
      var id := SectionId(|mains| + 1);
      toc := toc + [TocItem(id, cl.heading)];
      var inner := render(SectionRequest(cl.heading, cl.body, published, title, |mains| + 1));
      checklistHtml := SectionHtml(id, cl.heading, inner);
    }
    a := Assembled(toc, sectionsHtml, checklistHtml);
  }

  /** Entry `k` of the table of contents is `sec-(k+1)`: main sections are numbered from
      1 in order and the checklist, when there is one, comes last as `sec-(N+1)`. Each
      entry carries its section's heading. */
  lemma {:induction false} AssembleNumbering(parsed: ParsedDraft, published: string, title: string, render: SectionRequest -> string)
    ensures var a := Assemble(parsed, published, title, render);
      var n := |parsed.mainSections|;
      && |a.toc| == n + (if parsed.checklist.Some? then 1 else 0)
      && |a.sectionsHtml| == n
      && (forall k :: 0 <= k < |a.toc| ==> a.toc[k].id == SectionId(k + 1))
      && (forall k :: 0 <= k < n ==> a.toc[k].caption == parsed.mainSections[k].heading)
      && (parsed.checklist.Some? ==> a.toc[n].caption == parsed.checklist.value.heading)
      && (parsed.checklist.None? ==> a.checklistHtml == "")
  {
  }

  /** No two table-of-contents entries share an id. */
  lemma {:induction false} AssembleIdsDistinct(parsed: ParsedDraft, published: string, title: string, render: SectionRequest -> string)
    ensures var toc := Assemble(parsed, published, title, render).toc;
      forall j, k :: 0 <= j < k < |toc| ==> toc[j].id != toc[k].id
  {
    var toc := Assemble(parsed, published, title, render).toc;
    AssembleNumbering(parsed, published, title, render);
    forall j, k | 0 <= j < k < |toc| ensures toc[j].id != toc[k].id {
      SectionIdInjective(j + 1, k + 1);
    }
  }

  /** Every rendered section opens with the id of its own table-of-contents entry, so
      each entry links to exactly the section it names; every section has a non-empty body. */
  lemma {:induction false} SectionsMatchToc(parsed: ParsedDraft, published: string, title: string, render: SectionRequest -> string)
    ensures var a := Assemble(parsed, published, title, render);
      var n := |parsed.mainSections|;
      && (forall k :: 0 <= k < n ==> StartsWith(a.sectionsHtml[k], "<section id=\"" + a.toc[k].id + "\">"))
      && (parsed.checklist.Some? ==> StartsWith(a.checklistHtml, "<section id=\"" + a.toc[n].id + "\">"))
  {
    AssembleNumbering(parsed, published, title, render);
  }

  // ---------------------------------------------------------------------------
  // The three checks on the finished page
  // ---------------------------------------------------------------------------

  datatype PageError = NotDoctype | MissingStylesheet | MissingHtmlClose

  const Doctype: string := "<!DOCTYPE html"
  const LinkOpen: string := "<link"
  const StylesHref: string := "href=\"/assets/styles.css\""
  const HtmlClose: string := "</html>"

  predicate NoGreaterThan(s: string) {
    forall i :: 0 <= i < |s| ==> s[i] != '>'
  }

  /** `/<link[^>]+href="\/assets\/styles\.css"/i` matches at `i`, its `[^>]+` running to `j`. */
  predicate StylesLinkAt(html: string, i: int, j: int) {
    && 0 <= i && i + |LinkOpen| < j <= |html|
    && StartsWithCI(html[i..], LinkOpen)
    && NoGreaterThan(html[i + |LinkOpen|..j])
    && StartsWithCI(html[j..], StylesHref)
  }

  predicate HasStylesLink(html: string) {
    exists i, j | 0 <= i < j <= |html| :: StylesLinkAt(html, i, j)
  }

  /** `/<\/html>\s*$/i` matches at `k`. */
  predicate HtmlCloseAt(html: string, k: int) {
    0 <= k && k + |HtmlClose| <= |html| && StartsWithCI(html[k..], HtmlClose) && AllSpace(html[k + |HtmlClose|..])
  }

  predicate EndsWithHtmlClose(html: string) {
    exists k | 0 <= k <= |html| :: HtmlCloseAt(html, k)
  }

  /** The first failing check, in the order the source tests them, or None. */
  function PageProblem(html: string): (e: Option<PageError>)
    ensures e.None? <==> StartsWith(html, Doctype) && HasStylesLink(html) && EndsWithHtmlClose(html)
  {
    if !StartsWith(html, Doctype) then Some(NotDoctype)
    else if !HasStylesLink(html) then Some(MissingStylesheet)
    else if !EndsWithHtmlClose(html) then Some(MissingHtmlClose)
    else None
  }

  /** The end check is the same as: after trimming trailing white space, the page ends
      with `</html>` in any letter case. */
  lemma {:induction false} HtmlCloseIsTrimmedSuffix(html: string)
    ensures EndsWithHtmlClose(html) <==> EndsWithCI(TrimEnd(html), HtmlClose)
  {
    if EndsWithCI(TrimEnd(html), HtmlClose) {
      TrimmedSuffixIsHtmlClose(html);
    }
    if EndsWithHtmlClose(html) {
      var k :| 0 <= k <= |html| && HtmlCloseAt(html, k);
      HtmlCloseIsTrimmedSuffixAt(html, k);
    }
  }

  /** A trimmed page ending in `</html>` passes the end check. */
  lemma {:induction false} TrimmedSuffixIsHtmlClose(html: string)
    requires EndsWithCI(TrimEnd(html), HtmlClose)
    ensures HtmlCloseAt(html, SpaceRunStart(html, |html|) - |HtmlClose|)
  {
    TrimmedSuffixAt(html, HtmlClose);
  }

  /** Whatever a trimmed string ends with stands in it right before its trailing white space. */
  lemma {:induction false} TrimmedSuffixAt(s: string, p: string)
    requires EndsWithCI(TrimEnd(s), p)
    ensures var j := SpaceRunStart(s, |s|);
      |p| <= j && StartsWithCI(s[j - |p|..], p) && AllSpace(s[j..])
  {
    var j := SpaceRunStart(s, |s|);
    var t := TrimEnd(s);
    assert t == s[..j];
    PrefixSuffixCI(s, j, p);
    TrailingSpace(s);
  }

  /** A prefix of `s` ending in `p` has `p` right before its cut. */
  lemma {:induction false} PrefixSuffixCI(s: string, j: nat, p: string)
    requires j <= |s| && EndsWithCI(s[..j], p)
    ensures |p| <= j && StartsWithCI(s[j - |p|..], p)
  {
    var t := s[..j];
    forall i | 0 <= i < |p| ensures LowerAscii(s[j - |p|..][i]) == LowerAscii(p[i]) {
      assert s[j - |p|..][i] == t[|t| - |p|..][i];
    }
  }

  /** Everything after the trimmed end is white space. */
  lemma {:induction false} TrailingSpace(s: string)
    ensures AllSpace(s[SpaceRunStart(s, |s|)..])
  {
    var j := SpaceRunStart(s, |s|);
    forall i | 0 <= i < |s[j..]| ensures IsSpace(s[j..][i]) {
      assert s[j..][i] == s[j + i];
    }
  }

  /** A page passing the end check at `k` ends, once trimmed, in `</html>`. */
  lemma {:induction false} HtmlCloseIsTrimmedSuffixAt(html: string, k: int)
    requires HtmlCloseAt(html, k)
    ensures EndsWithCI(TrimEnd(html), HtmlClose)
  {
    var t := TrimEnd(html);
    HtmlCloseEndsSpaceRun(html, k);
    assert t[|t| - 7..] == html[k..k + 7];
    assert html[k..][..7] == html[k..k + 7];
  }

  /** Where the end check matches, the trailing white space starts right after `</html>`. */
  lemma {:induction false} HtmlCloseEndsSpaceRun(html: string, k: int)
    requires HtmlCloseAt(html, k)
    ensures SpaceRunStart(html, |html|) == k + 7
  {
    var j := SpaceRunStart(html, |html|);
    assert LowerAscii(html[k..][6]) == LowerAscii(HtmlClose[6]);
    assert html[k + 6] == '>';
    assert k + 6 < j;
    forall i | k + 7 <= i < |html| ensures IsSpace(html[i]) {
      assert html[i] == html[k + 7..][i - (k + 7)];
    }
    assert j <= k + 7;
  }

  /** A `<link ...>` whose attributes before `href` contain no `>` satisfies the stylesheet check. */
  lemma {:induction false} StylesLinkFound(pre: string, attrs: string, post: string)
    requires attrs != [] && NoGreaterThan(attrs)
    ensures HasStylesLink(pre + LinkOpen + attrs + StylesHref + post)
  {
    var html := pre + LinkOpen + attrs + StylesHref + post;
    var i := |pre|;
    var j := |pre| + |LinkOpen| + |attrs|;
    assert html[i..][..|LinkOpen|] == LinkOpen;
    assert html[i + |LinkOpen|..j] == attrs;
    assert html[j..][..|StylesHref|] == StylesHref;
    assert StylesLinkAt(html, i, j);
  }

  /** A page laid out as the template lays it out (doctype first, a stylesheet link in
      its head, `</html>` last with only white space after it) passes all three checks. */
  lemma {:induction false} TemplateShapePasses(a: string, attrs: string, b: string, tail: string)
    requires attrs != [] && NoGreaterThan(attrs) && AllSpace(tail)
    ensures PageProblem(Doctype + a + LinkOpen + attrs + StylesHref + b + HtmlClose + tail).None?
  {
    var rest := b + HtmlClose + tail;
    var html := Doctype + a + LinkOpen + attrs + StylesHref + rest;
    assert html == Doctype + a + LinkOpen + attrs + StylesHref + b + HtmlClose + tail;
    assert html[..|Doctype|] == Doctype;
    StylesLinkFound(Doctype + a, attrs, rest);
    var k := |html| - |tail| - |HtmlClose|;
    assert html[k..][..|HtmlClose|] == HtmlClose;
    assert html[k + |HtmlClose|..] == tail;
    assert HtmlCloseAt(html, k);
  }
}
