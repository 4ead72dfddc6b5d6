# Weekly "genba" article generator and manifest builder, modelled in Dafny

The repository's two batch scripts are modelled here.

`opt/scripts/generate_genba_weekly.js` publishes one article per run:
- It takes the head of a job queue (`genba_queue.json`).
- It asks a language model for a Markdown draft.
- It rejects the draft as a duplicate when the draft's normalised title is already the title of a published page, or when its embedding is at least `DUP_TH` similar to a cached page. A duplicate gets exactly one retry.
- It splits the accepted draft into `##` sections, renders each section through the model (with one shortened retry and a placeholder), numbers them `sec-1 … sec-N` with the checklist last, and fills the page template.
- It checks the page (doctype, stylesheet link, closing `</html>`), writes it, upserts its embedding into `genba_embeddings.json`, and pops the queue.
- Skips are logged newest-first in `genba_skipped.json`, at most 200 records.

`opt/scripts/genba_build_manifest.js` reads the hand-written articles linked from the index page and the generated articles. For each one it extracts a title, a publication date, table-of-contents labels and a summary. It writes one manifest item per URL, the first occurrence winning, so manual articles win over generated ones.

Modules:
- `Text` (text.dfy): JavaScript white space, `trim`, prefix and substring search (exact and ASCII case-insensitive), decimal digits.
- `Fragments` (fragments.dfy): `escapeHtml`, `sanitizeFragmentHtml`, `safeFilename`, `removeGenbaMemoPrefixTitleText`, `normTitle`.
- `MarkdownSections` (markdown_sections.dfy): `parseMarkdownSections`; the line loop is a method proved against a reference split.
- `Similarity` (similarity.dfy): `fingerprintFromDraft`, `maxSimilarityForDraft` (a method against `BestOf`), the cache rebuild loop, the upsert of a new page.
- `Assembly` (assembly.dfy): `renderSectionInnerHtml`'s retry policy, the section and table-of-contents loop, the three final page checks.
- `DraftGate` (gate.dfy): the duplicate gate with its single retry.
- `Publish` (publish.dfy): `appendSkip`, and `main` as a pure function `Run` from the data directory (`Store`) to a list of file writes and an outcome. The class `DataDir` holds the three JSON documents and the output directory as fields; its method `RunOnce` performs those writes in place.
- `Manifest` (manifest.dfy): the extractors, the URL, the two reading loops and the de-duplication loop of the manifest builder.

Where the code and the intended behaviour of `normTitle` disagree, the model follows the code. Two properties one would expect of a title normaliser do not hold:
- It is not idempotent: `x ! y` becomes `x  y` with two spaces, because spaces are collapsed before punctuation is removed (`Fragments.NormTitleNotIdempotent`).
- A hyphen is not treated as a space: `x-y!` and `x y` stay different (`Fragments.NormTitleKeepsHyphen`).

## Model

| member | source | states |
|---|---|---|
| Text.Trim | opt/scripts/generate_genba_weekly.js:409 | `trim` gives the text between its leading and trailing white space: it does not start or end with white space, and it is empty exactly when the text is all white space |
| Fragments.EscapeHtml | opt/scripts/generate_genba_weekly.js:195-202 | the five chained replacements, `&` first, equal a single pass that maps each of `& < > " '` to its entity and keeps every other character |
| Fragments.EscapeHtmlHasNoMarkup | opt/scripts/generate_genba_weekly.js:195-202 | escaped text contains none of `<`, `>`, `"`, `'` |
| Fragments.EscapeHtmlRoundTrip | opt/scripts/generate_genba_weekly.js:195-202 | decoding the five entities with `&amp;` last gives back the original text, for every input |
| Fragments.SanitizeFragmentHtml | opt/scripts/generate_genba_weekly.js:292-302 | the cleaned fragment is trimmed and is a contiguous piece of the model's raw answer: fences, wrapper and leading `<h3>` are only cut away, nothing is added |
| Fragments.SanitizeKeepsBareFragment | opt/scripts/generate_genba_weekly.js:292-302 | an answer without a fence, `<section>` wrapper or leading `<h3>` comes back exactly as its trimmed text |
| Fragments.FileSuffix | opt/scripts/generate_genba_weekly.js:90 | the suffix is 1 to 6 digits: the last six digits of the job id, or of `Date.now()` when the id is missing or has no digit |
| Fragments.SafeFilename | opt/scripts/generate_genba_weekly.js:88-92 | the name is `genba_<date>_<suffix>.html`, with the suffix at its fixed position |
| Fragments.SafeFilenameCollision | opt/scripts/generate_genba_weekly.js:90 | two ids whose last six digits agree give the same file name on the same day |
| Fragments.RemoveMemoPrefix | opt/scripts/generate_genba_weekly.js:148-152 | the result never starts or ends with white space |
| Fragments.MemoPrefixRemoved | opt/scripts/generate_genba_weekly.js:148-152 | `現場メモ` followed by `:` or `：`, with any white space around them, is cut off and the rest trimmed |
| Fragments.NormTitle | opt/scripts/generate_genba_weekly.js:54-61 | the normalised title is trimmed, holds only letters, numbers, white space and hyphens, and has no en or em dash left |
| Fragments.NormTitleOfSpaced | opt/scripts/generate_genba_weekly.js:54-61 | two letters separated by one space are already normal |
| Fragments.NormTitleOfHyphenated | opt/scripts/generate_genba_weekly.js:54-61 | `x-y!` normalises to `x-y`: the hyphen stays and the punctuation goes |
| Fragments.NormTitleNotIdempotent | opt/scripts/generate_genba_weekly.js:54-61 | normalising `x ! y` twice differs from normalising it once |
| Fragments.NormTitleKeepsHyphen | opt/scripts/generate_genba_weekly.js:54-61 | `x-y!` and `x y` normalise to different titles |
| MarkdownSections.SplitOnNewlineRoundTrip | opt/scripts/generate_genba_weekly.js:244 | joining the pieces of the split with newlines gives back the text |
| MarkdownSections.Lines | opt/scripts/generate_genba_weekly.js:244 | `split(/\r?\n/)`: one line per newline-separated piece, none holding a newline |
| MarkdownSections.HeadingCaptureSound | opt/scripts/generate_genba_weekly.js:266 | a line the heading matcher accepts matches `^\s*##\s+(.+?)\s*$` at concrete positions, and the capture is the lazy group |
| MarkdownSections.HeadingCaptureComplete | opt/scripts/generate_genba_weekly.js:266 | every line matching the heading pattern is accepted |
| MarkdownSections.HeadingIsTrimmedRest | opt/scripts/generate_genba_weekly.js:258-269 | the trimmed heading is the trimmed text after `##` |
| MarkdownSections.SplitSections | opt/scripts/generate_genba_weekly.js:255-274 | the line loop with `cur` and `pushCur` yields the reference split: one section per heading line, holding the lines up to the next heading, trimmed |
| MarkdownSections.PreambleIgnored | opt/scripts/generate_genba_weekly.js:265-273 | lines before the first heading contribute nothing |
| MarkdownSections.FirstDateLine | opt/scripts/generate_genba_weekly.js:250 | `find` of the date line: the first line that, after white space, starts with `投稿日:` or `投稿日：`, or none |
| MarkdownSections.FirstWith | opt/scripts/generate_genba_weekly.js:277-281 | `findIndex`: the first section whose heading contains the key, or none |
| MarkdownSections.OnlyFirstTocDropped | opt/scripts/generate_genba_weekly.js:277-278 | exactly one `目次` section is removed when there is one, and nothing otherwise |
| MarkdownSections.OnlyFirstChecklistSetAside | opt/scripts/generate_genba_weekly.js:280-284 | only the first `チェックリスト` section is set aside; later ones stay among the main sections |
| MarkdownSections.Parse | opt/scripts/generate_genba_weekly.js:242-290 | at most `MAX_SECTIONS` main sections, and the checklist's heading contains `チェックリスト` |
| MarkdownSections.ParseMarkdownSections | opt/scripts/generate_genba_weekly.js:242-290 | the method computes `Parse` |
| MarkdownSections.MainSectionsInOrder | opt/scripts/generate_genba_weekly.js:277-287 | the main sections are a subsequence, in order, of the split sections |
| Similarity.FingerprintFromDraft | opt/scripts/generate_genba_weekly.js:109-112 | the fingerprint is as long as its two labels, the theme and at most 2600 characters of the draft |
| Similarity.FingerprintIgnoresTail | opt/scripts/generate_genba_weekly.js:110 | drafts that agree on their first 2600 characters have the same fingerprint |
| Similarity.FingerprintOfShortDraft | opt/scripts/generate_genba_weekly.js:109-112 | different drafts of at most 2600 characters have different fingerprints |
| Similarity.Consider | opt/scripts/generate_genba_weekly.js:460-463 | one loop step keeps the best, or replaces it by a vector entry scoring strictly higher |
| Similarity.BestOf | opt/scripts/generate_genba_weekly.js:458-464 | the best score is never below -1, and it is -1 only when no entry replaced the starting `{sim: -1, file: "", title: ""}` |
| Similarity.MaxSimilarity | opt/scripts/generate_genba_weekly.js:454-466 | the loop from `{sim: -1}` computes `BestOf` |
| Similarity.BestOfIsUpperBound | opt/scripts/generate_genba_weekly.js:458-464 | the best score is at least -1 and at least every vector entry's score; entries without an array are skipped |
| Similarity.BestOfNoMatch | opt/scripts/generate_genba_weekly.js:458-464 | the result stays `{-1, "", ""}` exactly when no vector entry scores above -1 |
| Similarity.BestOfIsFirstMaximum | opt/scripts/generate_genba_weekly.js:463 | a found best is the first entry reaching the maximum score (strict `>`) |
| Similarity.FirstTopScoreWins | opt/scripts/generate_genba_weekly.js:463 | the first entry with the top score is reported, with its file and title |
| Similarity.ByFile | opt/scripts/generate_genba_weekly.js:427 | `new Map(items.map(x => [x.file, x]))` has a key for every cached file, each entry under its own file |
| Similarity.ByFileKeepsLast | opt/scripts/generate_genba_weekly.js:427 | a file is a key exactly when some entry has it, and it maps to the last such entry |
| Similarity.Refreshed | opt/scripts/generate_genba_weekly.js:437-449 | a refreshed entry belongs to the article's file and always has an embedding |
| Similarity.Rebuild | opt/scripts/generate_genba_weekly.js:430-451 | the rebuilt cache has one entry per listed article |
| Similarity.RebuildCache | opt/scripts/generate_genba_weekly.js:425-451 | the rebuild loop computes `Rebuild` of the cache map |
| Similarity.RebuildMeaning | opt/scripts/generate_genba_weekly.js:430-451 | entry `i` of the rebuilt cache is the article's file and title; it is a fresh embedding when the last cached entry for the file has none or there is none, and otherwise that entry retitled |
| Similarity.WithoutFile | opt/scripts/generate_genba_weekly.js:643 | the filter leaves no entry for the file |
| Similarity.WithoutFileMembers | opt/scripts/generate_genba_weekly.js:643 | an entry survives the filter exactly when it was there and is for another file |
| Similarity.KeptIndices | opt/scripts/generate_genba_weekly.js:643 | the positions of the entries for other files, increasing, and all of them |
| Similarity.WithoutFileAt | opt/scripts/generate_genba_weekly.js:643 | the filtered cache is the input taken at exactly those positions, so it keeps the original order |
| Similarity.Upsert | opt/scripts/generate_genba_weekly.js:636-644 | the new entry first, then the other files' entries in order, at most 400 |
| Similarity.UpsertMeaning | opt/scripts/generate_genba_weekly.js:636-644 | only the head has the new file; every entry is the new one or an old one for another file; below 400, no old entry for another file is lost |
| Similarity.UpsertKeepsUniqueFiles | opt/scripts/generate_genba_weekly.js:636-644 | a cache with one entry per file keeps that property |
| Assembly.RenderSection | opt/scripts/generate_genba_weekly.js:330-348 | one or two model calls per section, and the section's HTML is never empty |
| Assembly.RenderSectionPolicy | opt/scripts/generate_genba_weekly.js:330-348 | the retry is made exactly when the first cleaned fragment is empty or the response is incomplete; the result is then the retry's fragment or the placeholder |
| Assembly.RenderedComesFromModel | opt/scripts/generate_genba_weekly.js:330-348 | a section's HTML is the placeholder or a piece of one of the two answers |
| Assembly.RenderIgnoresRetryWhenFirstUsable | opt/scripts/generate_genba_weekly.js:330-331 | a usable first answer makes the retry answer irrelevant |
| Assembly.SectionIdInjective | opt/scripts/generate_genba_weekly.js:563 | different section numbers give different `sec-<n>` ids |
| Assembly.SectionHtml | opt/scripts/generate_genba_weekly.js:576-581 | a section element opens with `<section id="…">` for its own id and ends with `</section>` |
| Assembly.Assemble | opt/scripts/generate_genba_weekly.js:557-604 | one HTML block per main section; one table-of-contents entry per main section plus one for the checklist; empty checklist HTML exactly when there is no checklist |
| Assembly.AssembleSections | opt/scripts/generate_genba_weekly.js:557-604 | the loop over the main sections, then the checklist, computes `Assemble` |
| Assembly.AssembleNumbering | opt/scripts/generate_genba_weekly.js:557-604 | table-of-contents entry `k` is `sec-(k+1)` with its section's heading; the checklist comes last as `sec-(N+1)`; no checklist means empty checklist HTML |
| Assembly.AssembleIdsDistinct | opt/scripts/generate_genba_weekly.js:561-588 | no two table-of-contents entries share an id |
| Assembly.SectionsMatchToc | opt/scripts/generate_genba_weekly.js:576-603 | every rendered section opens with the id of its own table-of-contents entry |
| Assembly.PageProblem | opt/scripts/generate_genba_weekly.js:619-622 | a page passes exactly when it starts with `<!DOCTYPE html`, has a `<link …href="/assets/styles.css"` and ends in `</html>` followed only by white space |
| Assembly.HtmlCloseIsTrimmedSuffix | opt/scripts/generate_genba_weekly.js:622 | `/<\/html>\s*$/i` holds exactly when the page without trailing white space ends in `</html>` |
| Assembly.StylesLinkFound | opt/scripts/generate_genba_weekly.js:621 | a `<link` with non-empty attributes free of `>` before the stylesheet href satisfies the check |
| Assembly.TemplateShapePasses | opt/scripts/generate_genba_weekly.js:619-622 | a page shaped like the template of `buildHtmlSkeleton` (doctype, stylesheet link, `</html>` and trailing white space) passes all three checks |
| DraftGate.DraftTitle | opt/scripts/generate_genba_weekly.js:499-500 | the draft's title (Markdown title or theme, memo prefix removed) is trimmed |
| DraftGate.Decide | opt/scripts/generate_genba_weekly.js:498-545 | the gate stops on an empty first draft exactly when that draft is empty, and it consults the retry draft exactly when the first draft is a non-empty duplicate |
| DraftGate.AcceptedIsFresh | opt/scripts/generate_genba_weekly.js:498-545 | an accepted draft is non-empty and no duplicate, titled as the code titles it; it is the retry exactly when the first draft was a duplicate |
| DraftGate.SkipOnlyWhenBothDuplicate | opt/scripts/generate_genba_weekly.js:506-539 | a skip happens only when both drafts are non-empty duplicates; its reason is the retry's title test and score, one of which trips the threshold |
| DraftGate.FreshFirstDraftNeedsNoRetry | opt/scripts/generate_genba_weekly.js:506-507 | a fresh first draft is accepted whatever the retry would have said |
| DraftGate.HigherThresholdKeepsFirstDraft | opt/scripts/generate_genba_weekly.js:506 | raising the similarity threshold never rejects a first draft that was accepted |
| Publish.AppendSkip | opt/scripts/generate_genba_weekly.js:184-193 | the new record is first and the log holds 1 to 200 records |
| Publish.AppendSkipKeepsNewest | opt/scripts/generate_genba_weekly.js:184-193 | the older records follow in their order; only the oldest beyond 200 are dropped; a log that is not a list counts as empty |
| Publish.AppendSkipBounded | opt/scripts/generate_genba_weekly.js:184-193 | after two skips the log holds at most 200 records, the latest first and the previous second |
| Publish.WriteFile | opt/scripts/generate_genba_weekly.js:625 | after the write the directory holds the page under its name, and every other file is unchanged |
| Publish.WriteFileKeepsUniqueNames | opt/scripts/generate_genba_weekly.js:625 | file names stay unique, and the written name holds exactly the new contents |
| Publish.ExistingSummaries | opt/scripts/generate_genba_weekly.js:75-86 | at most one summary per page, each with a non-empty title |
| Publish.ExistingSummariesMeaning | opt/scripts/generate_genba_weekly.js:77-83 | every summary is the file name and title of an `.html` page other than `index.html` whose title is not empty, and every such page has its summary listed |
| Publish.Run | opt/scripts/generate_genba_weekly.js:393-651 | a run writes nothing exactly when it stops for a missing API key, an empty queue or an unreadable cache |
| Publish.UnreadableCacheUntouched | opt/scripts/generate_genba_weekly.js:425-427 | a cache file that is `null`, a primitive, or has `null` among its items stops the run before its first write, so the job stays queued |
| Publish.EntriesOfSlots | opt/scripts/generate_genba_weekly.js:634-635 | the cache written by the rebuild reads back at the upsert as the entries written |
| Publish.EmptyQueueUntouched | opt/scripts/generate_genba_weekly.js:393-406 | without an API key, or with a missing, malformed or empty queue, nothing is written |
| Publish.RunAtGate | opt/scripts/generate_genba_weekly.js:408-545 | a run with a non-empty theme is the gate's verdict on the two drafts, judged against the rebuilt cache, followed by what comes after the gate |
| Publish.AfterGate | opt/scripts/generate_genba_weekly.js:452-649 | the rebuilt cache is written first whatever the verdict, and the run ends as an empty draft, an empty retry, a duplicate skip, a published page or a rejected page |
| Publish.AfterGateDiscipline | opt/scripts/generate_genba_weekly.js:535-649 | after the gate the queue is popped only as the last write, only of its head, and only after the skip record or the page write |
| Publish.AfterGatePops | opt/scripts/generate_genba_weekly.js:535-649 | after the gate the queue is popped exactly for a duplicate skip or a published page |
| Publish.AfterGateWritesOnlyCheckedPages | opt/scripts/generate_genba_weekly.js:619-625 | a rejected page is neither written nor popped, and every written page passed the three checks |
| Publish.AfterGatePublished | opt/scripts/generate_genba_weekly.js:550-646 | a published page is written under its safe file name and heads the rewritten cache as its file's only entry |
| Publish.AfterGateSkipRecord | opt/scripts/generate_genba_weekly.js:535-537 | a duplicate skip leaves the skip log as `appendSkip` of a record holding the title test, the score and the threshold |
| Publish.AfterGateFromCache | opt/scripts/generate_genba_weekly.js:452-645 | the rebuilt cache is written first, and what follows does not depend on the cache that was read |
| Publish.RunQueueDiscipline | opt/scripts/generate_genba_weekly.js:402-649 | in every run the queue is popped only as the last write, only of its head, and only after a skip record or the page write |
| Publish.RunPopsExactlyWhenHandled | opt/scripts/generate_genba_weekly.js:408-649 | the queue is popped exactly on an empty-theme skip, a duplicate skip or a published page; errors and a failed page check leave it alone |
| Publish.RunWritesOnlyCheckedPages | opt/scripts/generate_genba_weekly.js:619-625 | a page failing a check is never written and its job stays queued; a written page passed the checks |
| Publish.PublishedPageIsCached | opt/scripts/generate_genba_weekly.js:550-646 | a published run writes the page under the job's safe file name and puts its entry at the head of the cache as the only one for that file |
| Publish.RunQueueAfter | opt/scripts/generate_genba_weekly.js:408-649 | after a run the queue is unchanged or has lost exactly its head |
| Publish.QueueAfterEffects | opt/scripts/generate_genba_weekly.js:408-649 | writes that pop only the head leave the queue unchanged or without its head |
| Publish.SkipRecordsJob | opt/scripts/generate_genba_weekly.js:408-539 | a skip puts a record for the queue's head first in a log of at most 200, with reason "theme empty" exactly for an empty theme |
| Publish.DataDir.constructor | opt/scripts/generate_genba_weekly.js:402-426 | the object holds the documents read from the data directory |
| Publish.DataDir.Perform | opt/scripts/generate_genba_weekly.js:48-52 | one atomic JSON write, or the page write of `fs.writeFileSync`, changes exactly its own field |
| Publish.DataDir.AppendSkipRecord | opt/scripts/generate_genba_weekly.js:184-193 | `unshift` then `slice(0, 200)` on the skip log field |
| Publish.DataDir.RunOnce | opt/scripts/generate_genba_weekly.js:393-651 | running `main` in place leaves the directory as `Run`'s writes applied in order, with `Run`'s outcome |
| Publish.DataDir.RunJobOnce | opt/scripts/generate_genba_weekly.js:417-649 | the run of a job with a non-empty theme performs the writes of `AtGate`, which writes nothing when the cache cannot be read |
| Publish.DataDir.GateOnce | opt/scripts/generate_genba_weekly.js:486-545 | the gate's statements compute `Decide` on the two drafts |
| Publish.DataDir.PageOnce | opt/scripts/generate_genba_weekly.js:550-617 | parse, render, number and fill the template: the page of `PageFor` |
| Publish.DataDir.AfterGateOnce | opt/scripts/generate_genba_weekly.js:535-649 | the writes after the cache write are those of `AfterGate` |
| Manifest.StripTags | opt/scripts/genba_build_manifest.js:12 | removing tags never makes the text longer |
| Manifest.StripTagsPlain | opt/scripts/genba_build_manifest.js:12 | a text without `<` is left as it is |
| Manifest.StripTagsTagFree | opt/scripts/genba_build_manifest.js:12 | `replace(/<[^>]+>/g, "")` leaves no complete tag |
| Manifest.ExtractTitle | opt/scripts/genba_build_manifest.js:10-15 | with neither `<h1>…</h1>` nor `<title>…</title>` the title is empty |
| Manifest.ElementCaptured | opt/scripts/genba_build_manifest.js:11 | an element whose opening tag has no earlier match and whose text holds no `<` is the one captured, with that text |
| Manifest.TitleOfPlainHeading | opt/scripts/genba_build_manifest.js:11-12 | a page starting `<h1>t</h1>` has the title `t` |
| Manifest.HeadingBeatsTitleElement | opt/scripts/genba_build_manifest.js:11-13 | a closed `<h1>` gives the title even when a `<title>` element comes first |
| Manifest.TitleElementWithoutHeading | opt/scripts/genba_build_manifest.js:13-14 | a page with no `<h1` at all takes its title from the `<title>` element |
| Manifest.ExtractPublishedDate | opt/scripts/genba_build_manifest.js:17-21 | the date is empty or of the shape `NNNN-NN-NN` |
| Manifest.PublishedDateFrom | opt/scripts/genba_build_manifest.js:17-21 | the date is empty or of the shape `NNNN-NN-NN` |
| Manifest.MetaDateFound | opt/scripts/genba_build_manifest.js:19 | a page starting `投稿日：YYYY-MM-DD` yields that date |
| Manifest.LinkFinderAdvances | opt/scripts/genba_build_manifest.js:28-30 | every link the global `<a>` search finds lies after the position searched from, inside the list |
| Manifest.LinksStep | opt/scripts/genba_build_manifest.js:28-30 | one `exec` that finds a link resumes after its `</a>` |
| Manifest.LinksWithin | opt/scripts/genba_build_manifest.js:28-30 | all collected link spans lie inside the list |
| Manifest.LinkLabels | opt/scripts/genba_build_manifest.js:28-30 | the `exec` loop pushes the safe, tag-free text of every link, in order |
| Manifest.TocLabels | opt/scripts/genba_build_manifest.js:23-32 | at most 30 labels |
| Manifest.ExtractTocLabels | opt/scripts/genba_build_manifest.js:23-32 | the labels of the list after the `目次` heading, at most 30 |
| Manifest.ExtractSummary | opt/scripts/genba_build_manifest.js:34-40 | at most 360 characters; "" without a closed `<p>`; otherwise the first paragraph's text with line breaks as spaces and tags removed |
| Manifest.SummaryNeedsParagraph | opt/scripts/genba_build_manifest.js:36-37 | a page without `<p` has an empty summary |
| Manifest.SummaryOfPlainParagraph | opt/scripts/genba_build_manifest.js:36-39 | a page starting `<p>text</p>` is summarised from `text` |
| Manifest.Url | opt/scripts/genba_build_manifest.js:63-64 | every URL starts with `/` |
| Manifest.ReplaceCharRemoves | opt/scripts/genba_build_manifest.js:63 | `replaceAll(path.sep, "/")` leaves no separator |
| Manifest.UrlShape | opt/scripts/genba_build_manifest.js:63-64 | a URL is `/` followed by a path free of the platform separator |
| Manifest.ReadItem | opt/scripts/genba_build_manifest.js:55-76 | an item keeps its path and source, has a URL, at most 30 labels and a summary of at most 360 characters |
| Manifest.Collect | opt/scripts/genba_build_manifest.js:88-102 | at most one item per path, each with the loop's source and a URL |
| Manifest.CollectSnoc | opt/scripts/genba_build_manifest.js:89-95 | one more path adds its item when the file can be read and nothing otherwise |
| Manifest.HtmlPaths | opt/scripts/genba_build_manifest.js:50-52 | at most one path per directory entry |
| Manifest.HtmlPathsMeaning | opt/scripts/genba_build_manifest.js:50-52 | every path is the directory joined to an `.html` name, and every `.html` name gives its joined path |
| Manifest.ManualPaths | opt/scripts/genba_build_manifest.js:82-84 | at most one path per index link, each ending in `.html` |
| Manifest.ManualPathsMeaning | opt/scripts/genba_build_manifest.js:82-84 | every path is the web root joined to an index link, and every link whose joined path ends in `.html` is kept |
| Manifest.CollectItems | opt/scripts/genba_build_manifest.js:89-95 | the reading loop with its try/catch computes `Collect` |
| Manifest.BuildItems | opt/scripts/genba_build_manifest.js:88-102 | manual items first, then generated ones |
| Manifest.Dedup | opt/scripts/genba_build_manifest.js:104-111 | the loop with its `seen` set computes the first occurrence of every non-empty URL, in input order |
| Manifest.FirstIndices | opt/scripts/genba_build_manifest.js:104-111 | the first-occurrence positions, increasing, and all of them |
| Manifest.FirstOccurrencesAt | opt/scripts/genba_build_manifest.js:104-111 | the de-duplicated list is the input taken at those positions |
| Manifest.DedupMeaning | opt/scripts/genba_build_manifest.js:104-111 | the manifest is an in-order subsequence with one item per URL, none without a URL, and every non-empty URL of the input listed |
| Manifest.FirstWithUrl | opt/scripts/genba_build_manifest.js:108 | every non-empty URL has a first occurrence at or before any other |
| Manifest.ManualWins | opt/scripts/genba_build_manifest.js:88-111 | a URL shared by a manual and a generated article is listed, and only as the manual one |
| Manifest.BuildManifest | opt/scripts/genba_build_manifest.js:78-113 | the written list is the de-duplicated manual-then-generated items |
| Manifest.EveryReadArticleListed | opt/scripts/genba_build_manifest.js:88-111 | every article that could be read has exactly one manifest item with its URL |

## Left out

- Calls to the language model and the embeddings API, with their prompts, token limits and logging, are not modelled. The texts they return are inputs: `Env.draft`, `Env.retryDraft`, `Env.respond`, `Env.embed`. A failing `embedText` (no array returned) is not modelled.
- cosineSim (floating-point arithmetic) is a parameter `Env.cosine`; scores are Dafny reals.
- The clock is a parameter. `jstNowIso`, `jstDateString` and `Date.now` are each read once per run as `Env.now`, `Env.date` and `Env.nowMs`; the source reads the clock several times.
- `extractMarkdownTitle`, `extractTitleAndHeads`, `fingerprintFromHtml`, `buildHtmlSkeleton`, `sanitizeFinalHtml`, `patchTitleAndH1` and `ensureHomeNav` are parameters of `Env`. Only the checks on their final result are modelled.
- Environment settings are parameters: `DUP_TH` is `Env.threshold` (0.88 by default) and `MAX_SECTIONS` is `Env.maxSections` (12 by default).
- Both settings come from `Number(process.env.… || default)` (generate_genba_weekly.js:21 and 27). The model takes a real and a natural number. A setting that parses to `NaN`, a negative number or a fraction is not modelled: with a `NaN` threshold no draft is a semantic duplicate, and `slice(0, MAX_SECTIONS)` treats a negative or fractional bound differently.
- The skip reason is a string in the source: `"theme empty"`, or `duplicate detected (titleDup=… sim=… th=…)` with the score rounded by `toFixed(3)` (line 536). The model records the same facts as the datatype `SkipReason`, with the unrounded score. Number formatting is not modelled.
- A job keeps only its theme and id (`Job`). The source copies every other field of the job unchanged into the skip record (`{ ...job, … }`, line 188) and into the rewritten queue, and never reads them.
- File-system order and errors are not modelled: `readdirSync`/`readdir` order is the order of the input sequence. A read that throws is `None` in the manifest builder; the generator's own reads cannot fail in the model.
- `path.join`, `path.relative`, `readText`, `safeText` and `extractWorkPostHrefs` are parameters. `opt/scripts/common_genba.js` is not part of this model.
- The `fs.existsSync` test in the cache rebuild always holds here, because the articles come from the same directory listing. The lemmas about the rebuilt cache assume the listing's file names are distinct.
- The thrown errors (an unreadable cache, draft empty, retry empty, a failed page check) and the missing-key exit are outcomes of `Run`. The stack trace and the exit code are not modelled.
- Character counts are Dafny characters, not UTF-16 code units: `slice(0, 2600)`, `slice(0, 360)` and `slice(-6)` agree with the source only for text without characters outside the Basic Multilingual Plane.
- Fragments.NormTitle: `toLowerCase` is a per-character map and `\p{L}`/`\p{N}` is a predicate, both given as `CharRules`. Multi-character lower-casing is not modelled.
- `\s` and `trim` use JavaScript's white-space set. The ASCII-only case folding of the `i` flag is exact for the tag names searched here.
- The generator writes its table of contents under `<h2>目次</h2>` (generate_genba_weekly.js:365), while the manifest builder looks for `<h3>目次</h3>`, white space allowed around the word (genba_build_manifest.js:26). Generated pages therefore normally get no table-of-contents labels in the manifest. The exception is a draft with a second section headed exactly `目次`: only the first such section is dropped (lines 277-278), the second is rendered as `<h3>目次</h3>` (line 578), and the builder then takes the links of the first `<ul>` after it. The template is a parameter here, so neither case is proved.
- Concurrency between runs, the atomic rename in `writeJsonAtomic`, and the routers and `opt/min.js` are not modelled.
- Fragments.RemoveMemoPrefix: the contract states only that the result is trimmed. The removal itself is stated by `Fragments.MemoPrefixRemoved`, for titles that carry the prefix.
