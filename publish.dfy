/** One run of the weekly generator (main): take the job at the head of the queue,
    skip it when its theme is empty, rebuild the embedding cache, pass the draft through
    the duplicate gate, assemble and check the page, write it, record it in the cache and
    only then remove the job from the queue.

    The run is specified twice: `Run` is a pure function giving the list of file writes
    it performs and how it ends; `DataDir.RunOnce` performs those writes one by one on the
    data directory, and its postcondition says the directory ends as the writes leave it.
    Everything the run asks of the outside world (the clock, the model, the embeddings,
    the HTML regex helpers) is a field of `Env`. */
module Publish {
  import opened Text
  import Fragments
  import opened MarkdownSections
  import opened Similarity
  import opened Assembly
  import opened DraftGate

  // ---------------------------------------------------------------------------
  // The data directory
  // ---------------------------------------------------------------------------

  /** A JSON array read from the data directory, or `NotList` when the file is missing,
      does not parse or holds something other than an array. */
  datatype JsonList<T> = List(items: seq<T>) | NotList

  /** `Array.isArray(x) ? x : []`. */
  function ItemsOf<T>(d: JsonList<T>): seq<T> {
    match d
    case List(items) => items
    case NotList => []
  }

  /** A queued job: `String(job?.theme ?? "")` before trimming, and `Some(String(job.id))`
      for a truthy id. */
  datatype Job = Job(theme: string, id: Option<string>)

  datatype SkipReason = ThemeEmpty | DuplicateDetected(titleDup: bool, sim: real, threshold: real)

  /** `{ ...job, skippedAtJST, reason }`. */
  datatype SkipRecord = SkipRecord(job: Job, skippedAt: string, reason: SkipReason)

  /** A file in the output directory. */
  datatype Post = Post(file: string, html: string)

  /** One element of the cache file's `items` array: an entry, `null`, or any other value
      (a number, a string, an object without a string `file`), which has no file name a
      lookup could find. */
  datatype CacheSlot = Entry(entry: CacheEntry) | NullSlot | Stray

  /** The embedding cache file as `readJson(EMB_CACHE_FILE, { items: [] })` returns it: an
      object with its `items` (a missing or unparsable file is `{ items: [] }`, a JSON array
      is an object without `items`), or `null` or another primitive. */
  datatype CacheDoc = CacheObject(items: JsonList<CacheSlot>) | NotObject

  /** Lines 425-426 read the cache without throwing: `cache.items = …` needs an object, and
      `x.file` needs every element of an `items` array to be other than `null`. */
  predicate CacheReadable(d: CacheDoc) {
    d.CacheObject? && (d.items.List? ==> forall i :: 0 <= i < |d.items.items| ==> !d.items.items[i].NullSlot?)
  }

  /** The entries among the slots, in order. */
  function Entries(slots: seq<CacheSlot>): (r: seq<CacheEntry>)
    ensures |r| <= |slots|
    decreases |slots|
  {
    if slots == [] then []
    else (if slots[0].Entry? then [slots[0].entry] else []) + Entries(slots[1..])
  }

  /** The `items` array of `{ items: entries }`. */
  function Slots(entries: seq<CacheEntry>): (r: seq<CacheSlot>)
    ensures |r| == |entries|
    decreases |entries|
  {
    if entries == [] then [] else [Entry(entries[0])] + Slots(entries[1..])
  }

  /** A written cache reads back as the entries written. */
  lemma {:induction false} EntriesOfSlots(entries: seq<CacheEntry>)
    ensures Entries(Slots(entries)) == entries
    decreases |entries|
  {
    if entries != [] {
      EntriesOfSlots(entries[1..]);
      assert Slots(entries)[1..] == Slots(entries[1..]);
    }
  }

  /** The cached entries `new Map(cache.items.map((x) => [x.file, x]))` can find by file
      name: the entries of an `items` array, none when there is no array. */
  function CachedEntries(d: CacheDoc): (r: seq<CacheEntry>)
    ensures d.CacheObject? && d.items.List? ==> |r| <= |d.items.items|
  {
    if d.CacheObject? then Entries(ItemsOf(d.items)) else []
  }

  /** The queue, the skip log, the embedding cache file and the published posts. */
  datatype Store = Store(queue: JsonList<Job>, skipped: JsonList<SkipRecord>, cache: CacheDoc, posts: seq<Post>)

  const MaxSkipEntries: nat := 200

  /** One file write of the run. */
  datatype Effect =
    | WriteSkipLog(records: seq<SkipRecord>)
    | WriteQueue(jobs: seq<Job>)
    | WriteCache(entries: seq<CacheEntry>)
    | WritePost(file: string, html: string)

  // ---------------------------------------------------------------------------
  // appendSkip
  // ---------------------------------------------------------------------------

  /** The skip log after `unshift(record)` and `slice(0, 200)`. */
  function AppendSkip(log: JsonList<SkipRecord>, record: SkipRecord): (r: seq<SkipRecord>)
    ensures 1 <= |r| <= MaxSkipEntries && r[0] == record
  {
    Take([record] + ItemsOf(log), MaxSkipEntries)
  }

  /** The new record goes first and the older records follow in their order; only the
      oldest ones beyond 200 are dropped. */
  lemma {:induction false} AppendSkipKeepsNewest(log: JsonList<SkipRecord>, record: SkipRecord)
    ensures var r := AppendSkip(log, record);
      && |r| == Min(MaxSkipEntries, |ItemsOf(log)| + 1)
      && forall i :: 0 <= i < |r| - 1 ==> r[i + 1] == ItemsOf(log)[i]
  {
  }

  /** After two skips in a row the log still holds at most 200 records, the latest
      first and the one before it second. */
  lemma {:induction false} AppendSkipBounded(log: JsonList<SkipRecord>, record: SkipRecord, older: SkipRecord)
    ensures var r := AppendSkip(List(AppendSkip(log, older)), record);
      |r| <= MaxSkipEntries && r[0] == record && r[1] == older
  {
  }

  // ---------------------------------------------------------------------------
  // Writing files
  // ---------------------------------------------------------------------------

  function PostNames(posts: seq<Post>): set<string> {
    set p | p in posts :: p.file
  }

  /** The output directory holds one file per name. */
  ghost predicate UniqueNames(posts: seq<Post>) {
    forall i, j :: 0 <= i < j < |posts| ==> posts[i].file != posts[j].file
  }

  /** `fs.writeFileSync`: an existing file is overwritten in place, a new one is added. */
  function WriteFile(posts: seq<Post>, file: string, html: string): (r: seq<Post>)
    ensures Post(file, html) in r
    ensures forall p :: p in r && p.file != file ==> p in posts
    ensures forall p :: p in posts && p.file != file ==> p in r
    decreases |posts|
  {
    if posts == [] then [Post(file, html)]
    else if posts[0].file == file then [Post(file, html)] + posts[1..]
    else [posts[0]] + WriteFile(posts[1..], file, html)
  }

  /** Writing keeps one file per name, and after it the name holds exactly the new page. */
  lemma {:induction false} WriteFileKeepsUniqueNames(posts: seq<Post>, file: string, html: string)
    requires UniqueNames(posts)
    ensures UniqueNames(WriteFile(posts, file, html))
    ensures forall p :: p in WriteFile(posts, file, html) && p.file == file ==> p.html == html
  {
    var r := WriteFile(posts, file, html);
    if posts != [] {
      var rest := posts[1..];
      assert UniqueNames(rest) by {
        forall i, j | 0 <= i < j < |rest| ensures rest[i].file != rest[j].file {
          assert rest[i] == posts[i + 1] && rest[j] == posts[j + 1];
        }
      }
      if posts[0].file == file {
        forall p | p in rest ensures p.file != file {
          var k :| 0 <= k < |rest| && rest[k] == p;
          assert posts[k + 1] == p;
        }
      } else {
        WriteFileKeepsUniqueNames(rest, file, html);
        forall p | p in WriteFile(rest, file, html) ensures p.file != posts[0].file {
          if p.file != file {
            var k :| 0 <= k < |rest| && rest[k] == p;
            assert posts[k + 1] == p;
          }
        }
      }
    }
  }

  function Apply(s: Store, e: Effect): Store {
    match e
    case WriteSkipLog(records) => s.(skipped := List(records))
    case WriteQueue(jobs) => s.(queue := List(jobs))
    case WriteCache(entries) => s.(cache := CacheObject(List(Slots(entries))))
    case WritePost(file, html) => s.(posts := WriteFile(s.posts, file, html))
  }

  function ApplyAll(s: Store, es: seq<Effect>): Store
    decreases |es|
  {
    if es == [] then s else ApplyAll(Apply(s, es[0]), es[1..])
  }

  // ---------------------------------------------------------------------------
  // The outside world
  // ---------------------------------------------------------------------------

  /** The inputs of buildHtmlSkeleton. */
  datatype PageParts = PageParts(title: string, published: string, toc: seq<TocItem>, sectionsHtml: seq<string>, checklistHtml: string)

  /** Everything a run takes from outside the data directory. `date`, `now` and `nowMs`
      stand for jstDateString, jstNowIso and Date.now; `draft` and `retryDraft` are the
      texts callText returns for the draft and draft-retry calls, already trimmed by it;
      `respond` answers the section calls; `embed` and `cosine` are embedText and
      cosineSim; `titleOfHtml` and `fingerprintOfHtml` are the title of
      extractTitleAndHeads and fingerprintFromHtml; `mdTitle` is extractMarkdownTitle;
      `page` is buildHtmlSkeleton followed by sanitizeFinalHtml, patchTitleAndH1 and
      ensureHomeNav. */
  datatype Env = Env(
    hasApiKey: bool,
    date: string,
    now: string,
    nowMs: nat,
    threshold: real,
    maxSections: nat,
    rules: Fragments.CharRules,
    mdTitle: string -> string,
    titleOfHtml: string -> string,
    fingerprintOfHtml: string -> string,
    embed: string -> seq<real>,
    cosine: (seq<real>, seq<real>) -> real,
    draft: string,
    retryDraft: string,
    respond: (SectionRequest, bool) -> Response,
    page: PageParts -> string)

  /** How a run ends. The last five leave with an error (an exit code of 1 or a thrown
      exception); the others return normally. */
  datatype Outcome =
    | QueueEmpty
    | SkippedEmptyTheme
    | SkippedDuplicate
    | Published(file: string)
    | MissingApiKey
    | DraftEmpty
    | RetryDraftEmpty
    | PageRejected(error: PageError)
    | CacheUnreadable

  datatype RunResult = RunResult(effects: seq<Effect>, outcome: Outcome)

  // ---------------------------------------------------------------------------
  // The run as a function
  // ---------------------------------------------------------------------------

  /** A post that listExistingSummaries keeps: an `.html` file other than `index.html`
      whose title is not empty. */
  predicate IsListed(p: Post, titleOfHtml: string -> string) {
    EndsWith(p.file, ".html") && p.file != "index.html" && titleOfHtml(p.html) != ""
  }

  function SummaryOf(p: Post, titleOfHtml: string -> string): Summary {
    Summary(p.file, titleOfHtml(p.html))
  }

  /** listExistingSummaries: the `.html` files other than `index.html` whose title is not empty. */
  function ExistingSummaries(posts: seq<Post>, titleOfHtml: string -> string): (r: seq<Summary>)
    ensures |r| <= |posts|
    ensures forall i :: 0 <= i < |r| ==> r[i].title != ""
    decreases |posts|
  {
    if posts == [] then []
    else
      var p := posts[0];
      (if IsListed(p, titleOfHtml) then [SummaryOf(p, titleOfHtml)] else []) + ExistingSummaries(posts[1..], titleOfHtml)
  }

  /** Every summary comes from a listed post, and every listed post has its summary. */
  lemma {:induction false} ExistingSummariesMeaning(posts: seq<Post>, titleOfHtml: string -> string)
    ensures forall i :: 0 <= i < |ExistingSummaries(posts, titleOfHtml)| ==>
      exists k :: 0 <= k < |posts| && IsListed(posts[k], titleOfHtml) && ExistingSummaries(posts, titleOfHtml)[i] == SummaryOf(posts[k], titleOfHtml)
    ensures forall k :: 0 <= k < |posts| && IsListed(posts[k], titleOfHtml) ==>
      SummaryOf(posts[k], titleOfHtml) in ExistingSummaries(posts, titleOfHtml)
    decreases |posts|
  {
    if posts != [] {
      var tail := posts[1..];
      var rest := ExistingSummaries(tail, titleOfHtml);
      ExistingSummariesMeaning(tail, titleOfHtml);
      var head := if IsListed(posts[0], titleOfHtml) then [SummaryOf(posts[0], titleOfHtml)] else [];
      assert ExistingSummaries(posts, titleOfHtml) == head + rest;
      forall i | 0 <= i < |ExistingSummaries(posts, titleOfHtml)|
        ensures exists k :: 0 <= k < |posts| && IsListed(posts[k], titleOfHtml) && ExistingSummaries(posts, titleOfHtml)[i] == SummaryOf(posts[k], titleOfHtml)
      {
        if i < |head| {
          assert IsListed(posts[0], titleOfHtml) && ExistingSummaries(posts, titleOfHtml)[i] == SummaryOf(posts[0], titleOfHtml);
        } else {
          assert ExistingSummaries(posts, titleOfHtml)[i] == rest[i - |head|];
          var k :| 0 <= k < |tail| && IsListed(tail[k], titleOfHtml) && rest[i - |head|] == SummaryOf(tail[k], titleOfHtml);
          assert tail[k] == posts[k + 1];
        }
      }
      forall k | 0 <= k < |posts| && IsListed(posts[k], titleOfHtml) ensures SummaryOf(posts[k], titleOfHtml) in ExistingSummaries(posts, titleOfHtml) {
        if k > 0 {
          assert posts[k] == tail[k - 1];
        }
      }
    } else {
      assert ExistingSummaries(posts, titleOfHtml) == [];
    }
  }

  /** `new Set(existingTitles.map(normTitle))`. */
  function NormalisedTitles(existing: seq<Summary>, rules: Fragments.CharRules): set<string> {
    set i | 0 <= i < |existing| :: Fragments.NormTitle(existing[i].title, rules)
  }

  /** The vector of a published article: the embedding of its fingerprint. */
  function VectorOf(posts: seq<Post>, env: Env): string -> seq<real> {
    file => env.embed(env.fingerprintOfHtml(HtmlOf(posts, file)))
  }

  /** The contents of a file of the output directory ("" for a missing one). */
  function HtmlOf(posts: seq<Post>, file: string): string
    decreases |posts|
  {
    if posts == [] then "" else if posts[0].file == file then posts[0].html else HtmlOf(posts[1..], file)
  }

  /** cosineSim against the embedding of a draft's fingerprint. */
  function SimFor(env: Env, theme: string, draft: string): seq<real> -> real {
    v => env.cosine(env.embed(FingerprintFromDraft(theme, draft)), v)
  }

  function JudgeFor(env: Env, theme: string, existing: seq<Summary>, cache: seq<CacheEntry>): Judge {
    Judge(NormalisedTitles(existing, env.rules), env.threshold, env.rules, env.mdTitle,
      draft => BestOf(cache, SimFor(env, theme, draft)))
  }

  /** renderSectionInnerHtml with the model's answers fixed. */
  function Renderer(env: Env): SectionRequest -> string {
    req => RenderSection(req, env.respond).html
  }

  /** The page of an accepted draft: parse it, render and number its sections, fill the
      template. */
  function PageFor(draft: string, draftTitle: string, theme: string, env: Env): string {
    var parsed := Parse(draft, env.mdTitle(draft), env.maxSections);
    var finalTitle := if parsed.title != "" then parsed.title else if draftTitle != "" then draftTitle else theme;
    var a := Assemble(parsed, env.date, finalTitle, Renderer(env));
    env.page(PageParts(finalTitle, env.date, a.toc, a.sectionsHtml, a.checklistHtml))
  }

  /** The cache entry of a freshly written page. */
  function NewEntry(file: string, html: string, env: Env): CacheEntry {
    CacheEntry(file, env.titleOfHtml(html), Vector(env.embed(env.fingerprintOfHtml(html))), env.now)
  }

  /** What follows the gate. `updated` is the rebuilt cache, `v` the verdict and `html`
      the page built for an accepted draft. The rebuilt cache is written first whatever
      the verdict; a duplicate retry is logged as a skip and popped; an accepted page is
      checked, written, upserted into the cache (read back as the rebuild left it) and
      only then popped. */
  function AfterGate(s: Store, env: Env, job: Job, updated: seq<CacheEntry>, v: Verdict, html: string): (r: RunResult)
    requires s.queue.List? && s.queue.items != []
    ensures r.effects != [] && r.effects[0] == WriteCache(updated)
    ensures r.outcome.DraftEmpty? || r.outcome.RetryDraftEmpty? || r.outcome.SkippedDuplicate?
      || r.outcome.Published? || r.outcome.PageRejected?
  {
    match v
    case EmptyDraft => RunResult([WriteCache(updated)], DraftEmpty)
    case EmptyRetry => RunResult([WriteCache(updated)], RetryDraftEmpty)
    case Duplicate(titleDup, sim) =>
      var record := SkipRecord(job, env.now, DuplicateDetected(titleDup, sim, env.threshold));
      RunResult([WriteCache(updated), WriteSkipLog(AppendSkip(s.skipped, record)), WriteQueue(s.queue.items[1..])], SkippedDuplicate)
    case Accept(_, _, _) =>
      var file := Fragments.SafeFilename(job.id, env.date, env.nowMs);
      match PageProblem(html)
      case Some(err) => RunResult([WriteCache(updated)], PageRejected(err))
      case None =>
        RunResult(
          [WriteCache(updated), WritePost(file, html), WriteCache(Upsert(updated, NewEntry(file, html, env))), WriteQueue(s.queue.items[1..])],
          Published(file))
  }

  /** The embedding cache rebuilt from the published articles. */
  function RebuiltCache(s: Store, env: Env): seq<CacheEntry> {
    Rebuild(ByFile(CachedEntries(s.cache)), ExistingSummaries(s.posts, env.titleOfHtml), VectorOf(s.posts, env), env.now)
  }

  /** The gate's verdict on the two drafts, judged against the rebuilt cache. */
  function GateVerdict(s: Store, env: Env, theme: string): Verdict {
    Decide(env.draft, env.retryDraft, theme, JudgeFor(env, theme, ExistingSummaries(s.posts, env.titleOfHtml), RebuiltCache(s, env)))
  }

  /** The page of an accepted draft; no page is built otherwise. */
  function AcceptedPage(v: Verdict, theme: string, env: Env): string {
    if v.Accept? then PageFor(v.draft, v.title, theme, env) else ""
  }

  /** main. */
  function Run(s: Store, env: Env): (r: RunResult)
    ensures r.effects == [] <==> r.outcome.MissingApiKey? || r.outcome.QueueEmpty? || r.outcome.CacheUnreadable?
  {
    if !env.hasApiKey then RunResult([], MissingApiKey)
    else if s.queue.NotList? || s.queue.items == [] then RunResult([], QueueEmpty)
    else
      var job := s.queue.items[0];
      var theme := Trim(job.theme);
      if theme == "" then
        var record := SkipRecord(job, env.now, ThemeEmpty);
        RunResult([WriteSkipLog(AppendSkip(s.skipped, record)), WriteQueue(s.queue.items[1..])], SkippedEmptyTheme)
      else AtGate(s, env, job, theme)
  }

  /** The run of a job with a non-empty theme. */
  function AtGate(s: Store, env: Env, job: Job, theme: string): RunResult
    requires s.queue.List? && s.queue.items != []
  {
    if !CacheReadable(s.cache) then RunResult([], CacheUnreadable)
    else
      var v := GateVerdict(s, env, theme);
      AfterGate(s, env, job, RebuiltCache(s, env), v, AcceptedPage(v, theme, env))
  }

  /** A run that reaches the gate is `AfterGate` of the rebuilt cache, the verdict and
      the accepted page. */
  predicate ReachesGate(s: Store, env: Env) {
    env.hasApiKey && s.queue.List? && s.queue.items != [] && Trim(s.queue.items[0].theme) != ""
      && CacheReadable(s.cache)
  }

  // ---------------------------------------------------------------------------
  // What a run promises
  // ---------------------------------------------------------------------------

  /** The queue is written at most once, as the last write, and always as the queue read
      at the start without its head. */
  ghost predicate PopsOnlyHead(s: Store, es: seq<Effect>) {
    forall k :: 0 <= k < |es| && es[k].WriteQueue? ==>
      && k == |es| - 1
      && s.queue.List? && s.queue.items != []
      && es[k].jobs == s.queue.items[1..]
  }

  /** Every pop comes right after a skip record for the popped job, or after the page was
      written. */
  ghost predicate PopsAfterRecordOrWrite(s: Store, es: seq<Effect>) {
    forall k :: 0 <= k < |es| && es[k].WriteQueue? ==> k > 0 && (RecordsHead(s, es[k - 1]) || WrittenBefore(es, k))
  }

  /** `e` writes the skip log with a record for the job at the head of the queue first. */
  ghost predicate RecordsHead(s: Store, e: Effect) {
    e.WriteSkipLog? && e.records != [] && s.queue.List? && s.queue.items != [] && e.records[0].job == s.queue.items[0]
  }

  /** A page is written before position `k`. */
  ghost predicate WrittenBefore(es: seq<Effect>, k: int) {
    exists m :: 0 <= m < k && m < |es| && es[m].WritePost?
  }

  /** Some write of `es` rewrites the queue. */
  ghost predicate Pops(es: seq<Effect>) {
    exists k :: 0 <= k < |es| && es[k].WriteQueue?
  }

  /** After the gate the queue is popped only as the last write, only of its head, and
      only right after the skip record or once the page is written. */
  lemma {:induction false} AfterGateDiscipline(s: Store, env: Env, job: Job, updated: seq<CacheEntry>, v: Verdict, html: string)
    requires s.queue.List? && s.queue.items != [] && job == s.queue.items[0]
    ensures PopsOnlyHead(s, AfterGate(s, env, job, updated, v, html).effects)
    ensures PopsAfterRecordOrWrite(s, AfterGate(s, env, job, updated, v, html).effects)
  {
    var es := AfterGate(s, env, job, updated, v, html).effects;
    if v.Duplicate? {
      assert es == [es[0], es[1], es[2]] && RecordsHead(s, es[1]);
    } else if v.Accept? && PageProblem(html).None? {
      assert es == [es[0], es[1], es[2], es[3]] && es[1].WritePost?;
    } else {
      assert es == [es[0]];
    }
  }

  /** After the gate the queue is popped exactly when the job was skipped as a duplicate
      or its page was published. */
  lemma {:induction false} AfterGatePops(s: Store, env: Env, job: Job, updated: seq<CacheEntry>, v: Verdict, html: string)
    requires s.queue.List? && s.queue.items != []
    ensures var r := AfterGate(s, env, job, updated, v, html);
      Pops(r.effects) <==> r.outcome.SkippedDuplicate? || r.outcome.Published?
  {
    var r := AfterGate(s, env, job, updated, v, html);
    if r.outcome.SkippedDuplicate? || r.outcome.Published? {
      assert r.effects[|r.effects| - 1].WriteQueue?;
    }
  }

  /** After the gate a rejected page is neither written nor popped, and a written page
      passed the three checks. */
  lemma {:induction false} AfterGateWritesOnlyCheckedPages(s: Store, env: Env, job: Job, updated: seq<CacheEntry>, v: Verdict, html: string)
    requires s.queue.List? && s.queue.items != []
    ensures var r := AfterGate(s, env, job, updated, v, html);
      && (r.outcome.PageRejected? ==> forall k :: 0 <= k < |r.effects| ==> !r.effects[k].WritePost? && !r.effects[k].WriteQueue?)
      && (forall k :: 0 <= k < |r.effects| && r.effects[k].WritePost? ==> PageProblem(r.effects[k].html).None?)
  {
    AfterGateRejectedWritesNothing(s, env, job, updated, v, html);
    AfterGatePostsChecked(s, env, job, updated, v, html);
  }

  /** A rejected page leaves only the rewritten cache behind. */
  lemma {:induction false} AfterGateRejectedWritesNothing(s: Store, env: Env, job: Job, updated: seq<CacheEntry>, v: Verdict, html: string)
    requires s.queue.List? && s.queue.items != []
    ensures var r := AfterGate(s, env, job, updated, v, html);
      r.outcome.PageRejected? ==> r.effects == [WriteCache(updated)]
  {
  }

  /** Only a page that passed the three checks is written. */
  lemma {:induction false} AfterGatePostsChecked(s: Store, env: Env, job: Job, updated: seq<CacheEntry>, v: Verdict, html: string)
    requires s.queue.List? && s.queue.items != []
    ensures var r := AfterGate(s, env, job, updated, v, html);
      forall k :: 0 <= k < |r.effects| && r.effects[k].WritePost? ==> r.effects[k].html == html && PageProblem(html).None?
  {
    var es := AfterGate(s, env, job, updated, v, html).effects;
    match v
    case Accept(_, _, _) =>
      if PageProblem(html).None? {
        OnlySecondPosted(es, html);
      }
    case Duplicate(_, _) =>
      assert |es| == 3 && !es[0].WritePost? && !es[1].WritePost? && !es[2].WritePost?;
    case _ =>
  }

  /** The published effect list writes a page only as its second effect. */
  lemma {:induction false} OnlySecondPosted(es: seq<Effect>, html: string)
    requires |es| == 4 && es[1].WritePost? && es[1].html == html
    requires es[0].WriteCache? && es[2].WriteCache? && es[3].WriteQueue?
    ensures forall k :: 0 <= k < |es| && es[k].WritePost? ==> es[k].html == html
  {
  }

  /** A published page is written under its safe file name and heads the rewritten cache
      as the only entry for that name. */
  lemma {:induction false} AfterGatePublished(s: Store, env: Env, job: Job, updated: seq<CacheEntry>, v: Verdict, html: string)
    requires s.queue.List? && s.queue.items != []
    requires AfterGate(s, env, job, updated, v, html).outcome.Published?
    ensures var r := AfterGate(s, env, job, updated, v, html);
      && r.outcome.file == Fragments.SafeFilename(job.id, env.date, env.nowMs)
      && |r.effects| == 4
      && r.effects[1] == WritePost(r.outcome.file, html)
      && r.effects[2].WriteCache? && r.effects[2].entries != [] && r.effects[2].entries[0].file == r.outcome.file
      && forall i :: 0 < i < |r.effects[2].entries| ==> r.effects[2].entries[i].file != r.outcome.file
  {
  }

  /** A run that reaches the gate is what follows the gate. */
  lemma {:induction false} RunAtGate(s: Store, env: Env)
    requires ReachesGate(s, env)
    ensures var theme := Trim(s.queue.items[0].theme);
      var v := GateVerdict(s, env, theme);
      Run(s, env) == AfterGate(s, env, s.queue.items[0], RebuiltCache(s, env), v, AcceptedPage(v, theme, env))
  {
  }

  /** The queue is popped only as the run's last write and only of its head, and every
      pop comes right after the job's skip record or after its page was written. */
  lemma {:induction false} RunQueueDiscipline(s: Store, env: Env)
    ensures PopsOnlyHead(s, Run(s, env).effects)
    ensures PopsAfterRecordOrWrite(s, Run(s, env).effects)
  {
    if ReachesGate(s, env) {
      var theme := Trim(s.queue.items[0].theme);
      var v := GateVerdict(s, env, theme);
      RunAtGate(s, env);
      AfterGateDiscipline(s, env, s.queue.items[0], RebuiltCache(s, env), v, AcceptedPage(v, theme, env));
    }
  }

  /** The queue is popped exactly on the three normal endings that dealt with the job:
      a skip for an empty theme, a skip for a duplicate, a published page. */
  lemma {:induction false} RunPopsExactlyWhenHandled(s: Store, env: Env)
    ensures var r := Run(s, env);
      Pops(r.effects) <==> r.outcome.SkippedEmptyTheme? || r.outcome.SkippedDuplicate? || r.outcome.Published?
  {
    if ReachesGate(s, env) {
      var theme := Trim(s.queue.items[0].theme);
      var v := GateVerdict(s, env, theme);
      RunAtGate(s, env);
      AfterGatePops(s, env, s.queue.items[0], RebuiltCache(s, env), v, AcceptedPage(v, theme, env));
    } else {
      var r := Run(s, env);
      if r.outcome.SkippedEmptyTheme? {
        assert r.effects[1].WriteQueue?;
      }
    }
  }

  /** With no usable queue (or no API key) the run writes nothing at all. */
  lemma {:induction false} EmptyQueueUntouched(s: Store, env: Env)
    requires s.queue.NotList? || s.queue.items == [] || !env.hasApiKey
    ensures Run(s, env).effects == []
    ensures ApplyAll(s, Run(s, env).effects) == s
  {
  }

  /** A cache file the run cannot read (`null`, a primitive, or an `items` array holding
      `null`) makes it throw before its first write: nothing is written and the job stays
      queued. */
  lemma {:induction false} UnreadableCacheUntouched(s: Store, env: Env)
    requires env.hasApiKey && s.queue.List? && s.queue.items != [] && Trim(s.queue.items[0].theme) != ""
    requires !CacheReadable(s.cache)
    ensures Run(s, env) == RunResult([], CacheUnreadable)
    ensures ApplyAll(s, Run(s, env).effects) == s
  {
  }

  /** A page that fails a check is never written and the job stays queued; a page that is
      written has passed all three checks. */
  lemma {:induction false} RunWritesOnlyCheckedPages(s: Store, env: Env)
    ensures var r := Run(s, env);
      && (r.outcome.PageRejected? ==> forall k :: 0 <= k < |r.effects| ==> !r.effects[k].WritePost? && !r.effects[k].WriteQueue?)
      && (forall k :: 0 <= k < |r.effects| && r.effects[k].WritePost? ==> PageProblem(r.effects[k].html).None?)
  {
    if ReachesGate(s, env) {
      var theme := Trim(s.queue.items[0].theme);
      var v := GateVerdict(s, env, theme);
      RunAtGate(s, env);
      AfterGateWritesOnlyCheckedPages(s, env, s.queue.items[0], RebuiltCache(s, env), v, AcceptedPage(v, theme, env));
    }
  }

  /** A published page is written under its safe file name, heads the rewritten cache, and
      is the cache's only entry for that name. */
  lemma {:induction false} PublishedPageIsCached(s: Store, env: Env)
    requires Run(s, env).outcome.Published?
    ensures var r := Run(s, env);
      && r.outcome.file == Fragments.SafeFilename(s.queue.items[0].id, env.date, env.nowMs)
      && |r.effects| == 4
      && r.effects[1].WritePost? && r.effects[1].file == r.outcome.file
      && r.effects[2].WriteCache? && r.effects[2].entries != [] && r.effects[2].entries[0].file == r.outcome.file
      && forall i :: 0 < i < |r.effects[2].entries| ==> r.effects[2].entries[i].file != r.outcome.file
  {
    assert ReachesGate(s, env);
    var job := s.queue.items[0];
    var theme := Trim(job.theme);
    var v := GateVerdict(s, env, theme);
    var updated := RebuiltCache(s, env);
    var html := AcceptedPage(v, theme, env);
    RunAtGate(s, env);
    assert Run(s, env) == AfterGate(s, env, job, updated, v, html);
    AfterGatePublished(s, env, s.queue.items[0], RebuiltCache(s, env), v, AcceptedPage(v, theme, env));
  }

  /** The queue after a run is the queue before it, or that queue without its head. */
  lemma {:induction false} RunQueueAfter(s: Store, env: Env)
    ensures var after := ApplyAll(s, Run(s, env).effects).queue;
      after == s.queue || (s.queue.List? && s.queue.items != [] && after == List(s.queue.items[1..]))
  {
    RunQueueDiscipline(s, env);
    QueueAfterEffects(s, Run(s, env).effects);
  }

  /** Applying writes that touch the queue only as PopsOnlyHead allows leaves the queue
      unchanged or without its head. */
  lemma {:induction false} QueueAfterEffects(s: Store, es: seq<Effect>)
    requires PopsOnlyHead(s, es)
    ensures ApplyAll(s, es).queue == s.queue
      || (s.queue.List? && s.queue.items != [] && ApplyAll(s, es).queue == List(s.queue.items[1..]))
    decreases |es|
  {
    if es != [] {
      var s' := Apply(s, es[0]);
      if es[0].WriteQueue? {
        assert |es| == 1;
        assert es[1..] == [];
      } else {
        assert s'.queue == s.queue;
        assert PopsOnlyHead(s', es[1..]) by {
          forall k | 0 <= k < |es[1..]| && es[1..][k].WriteQueue?
            ensures k == |es[1..]| - 1 && s'.queue.List? && s'.queue.items != [] && es[1..][k].jobs == s'.queue.items[1..]
          {
            assert es[k + 1] == es[1..][k];
          }
        }
        QueueAfterEffects(s', es[1..]);
      }
    }
  }

  lemma {:induction false} ApplyTwo(s: Store, a: Effect, b: Effect)
    ensures ApplyAll(s, [a, b]) == Apply(Apply(s, a), b)
  {
    assert [a, b][1..] == [b];
    assert [b][1..] == [];
    assert ApplyAll(Apply(Apply(s, a), b), []) == Apply(Apply(s, a), b);
    assert ApplyAll(Apply(s, a), [b]) == ApplyAll(Apply(Apply(s, a), b), []);
  }

  lemma {:induction false} ApplyThree(s: Store, a: Effect, b: Effect, c: Effect)
    ensures ApplyAll(s, [a, b, c]) == Apply(Apply(Apply(s, a), b), c)
  {
    assert [a, b, c][1..] == [b, c];
    ApplyTwo(Apply(s, a), b, c);
  }

  lemma {:induction false} ApplyFour(s: Store, a: Effect, b: Effect, c: Effect, d: Effect)
    ensures ApplyAll(s, [a, b, c, d]) == Apply(Apply(Apply(Apply(s, a), b), c), d)
  {
    assert [a, b, c, d][1..] == [b, c, d];
    ApplyThree(Apply(s, a), b, c, d);
  }

  /** After the gate a duplicate retry leaves the skip log as appendSkip of a record for
      the job that states the retry's title test, its best score and the threshold. */
  lemma {:induction false} AfterGateSkipRecord(s: Store, env: Env, job: Job, updated: seq<CacheEntry>, v: Verdict, html: string)
    requires s.queue.List? && s.queue.items != []
    requires AfterGate(s, env, job, updated, v, html).outcome.SkippedDuplicate?
    ensures v.Duplicate?
    ensures ApplyAll(s, AfterGate(s, env, job, updated, v, html).effects).skipped
      == List(AppendSkip(s.skipped, SkipRecord(job, env.now, DuplicateDetected(v.titleDup, v.sim, env.threshold))))
  {
    var es := AfterGate(s, env, job, updated, v, html).effects;
    ApplyThree(s, es[0], es[1], es[2]);
  }

  /** The writes after the gate start with the rebuilt cache, and what follows the gate
      does not depend on the cache that was read. */
  lemma {:induction false} AfterGateFromCache(s: Store, env: Env, job: Job, updated: seq<CacheEntry>, v: Verdict, html: string)
    requires s.queue.List? && s.queue.items != []
    ensures var s1 := Apply(s, WriteCache(updated));
      && AfterGate(s1, env, job, updated, v, html) == AfterGate(s, env, job, updated, v, html)
      && ApplyAll(s, AfterGate(s, env, job, updated, v, html).effects)
         == ApplyAll(s1, AfterGate(s1, env, job, updated, v, html).effects[1..])
  {
  }

  /** A skip puts a record for the job at the head of the skip log and keeps at most 200. */
  lemma {:induction false} SkipRecordsJob(s: Store, env: Env)
    requires Run(s, env).outcome.SkippedEmptyTheme? || Run(s, env).outcome.SkippedDuplicate?
    ensures var log := ApplyAll(s, Run(s, env).effects).skipped;
      && log.List? && 1 <= |log.items| <= MaxSkipEntries
      && log.items[0].job == s.queue.items[0]
      && (Run(s, env).outcome.SkippedEmptyTheme? <==> log.items[0].reason == ThemeEmpty)
  {
    if ReachesGate(s, env) {
      var job := s.queue.items[0];
      var theme := Trim(job.theme);
      var v := GateVerdict(s, env, theme);
      var updated := RebuiltCache(s, env);
      var html := AcceptedPage(v, theme, env);
      RunAtGate(s, env);
      assert Run(s, env) == AfterGate(s, env, job, updated, v, html);
      AfterGateSkipRecord(s, env, job, updated, v, html);
    } else {
      var es := Run(s, env).effects;
      ApplyTwo(s, es[0], es[1]);
    }
  }

  // ---------------------------------------------------------------------------
  // The data directory as an object
  // ---------------------------------------------------------------------------

  class DataDir {
    var queue: JsonList<Job>
    var skipped: JsonList<SkipRecord>
    var cache: CacheDoc
    var posts: seq<Post>

    function Snapshot(): Store
      reads this
    {
      Store(queue, skipped, cache, posts)
    }

    constructor (s: Store)
      ensures Snapshot() == s
    {
      queue := s.queue;
      skipped := s.skipped;
      cache := s.cache;
      posts := s.posts;
    }

    /** writeJsonAtomic of one of the JSON files, or writeFileSync of a page. */
    method Perform(e: Effect)
      modifies this
      ensures Snapshot() == Apply(old(Snapshot()), e)
    {
      match e
      case WriteSkipLog(records) => skipped := List(records);
      case WriteQueue(jobs) => queue := List(jobs);
      case WriteCache(entries) => cache := CacheObject(List(Slots(entries)));
      case WritePost(file, html) => posts := WriteFile(posts, file, html);
    }

    /** appendSkip. */
    method AppendSkipRecord(job: Job, at: string, reason: SkipReason)
      modifies this
      ensures Snapshot() == Apply(old(Snapshot()), WriteSkipLog(AppendSkip(old(skipped), SkipRecord(job, at, reason))))
    {
      var list := if skipped.List? then skipped.items else [];
      list := [SkipRecord(job, at, reason)] + list;
      Perform(WriteSkipLog(Take(list, MaxSkipEntries)));
    }

    /** One run of main on this data directory. */
    method RunOnce(env: Env) returns (outcome: Outcome)
      modifies this
      ensures Snapshot() == ApplyAll(old(Snapshot()), Run(old(Snapshot()), env).effects)
      ensures outcome == Run(old(Snapshot()), env).outcome
    {
      ghost var s := Snapshot();
      if !env.hasApiKey {
        return MissingApiKey;
      }
      var q := queue;
      if !q.List? || q.items == [] {
        return QueueEmpty;
      }
      var job := q.items[0];
      var theme := Trim(job.theme);
      if theme == "" {
        AppendSkipRecord(job, env.now, ThemeEmpty);
        Perform(WriteQueue(q.items[1..]));
        ApplyTwo(s, WriteSkipLog(AppendSkip(s.skipped, SkipRecord(job, env.now, ThemeEmpty))), WriteQueue(q.items[1..]));
        return SkippedEmptyTheme;
      }
      outcome := RunJobOnce(env, job, theme);
    }

    /** The part of main after the theme check. */
    method RunJobOnce(env: Env, job: Job, theme: string) returns (outcome: Outcome)
      requires queue.List? && queue.items != [] && job == queue.items[0]
      modifies this
      ensures Snapshot() == ApplyAll(old(Snapshot()), AtGate(old(Snapshot()), env, job, theme).effects)
      ensures outcome == AtGate(old(Snapshot()), env, job, theme).outcome
    {
      ghost var s := Snapshot();
      if !CacheReadable(cache) {
        return CacheUnreadable;
      }
      var existing := ExistingSummaries(posts, env.titleOfHtml);
      var cached := CachedEntries(cache);
      var updated := RebuildCache(cached, existing, VectorOf(posts, env), env.now);
      Perform(WriteCache(updated));
      var v := GateOnce(env, theme, existing, updated);
      var html := "";
      if v.Accept? {
        html := PageOnce(env, v.draft, v.title, theme);
      }
      assert updated == RebuiltCache(s, env);
      assert v == GateVerdict(s, env, theme);
      assert html == AcceptedPage(v, theme, env);
      AfterGateFromCache(s, env, job, updated, v, html);
      outcome := AfterGateOnce(env, job, updated, v, html);
    }

    /** The duplicate gate of main: the title test and the best cached match of the
        draft, and of the retry draft when the first one is a duplicate. */
    method GateOnce(env: Env, theme: string, existing: seq<Summary>, updated: seq<CacheEntry>) returns (v: Verdict)
      ensures v == Decide(env.draft, env.retryDraft, theme, JudgeFor(env, theme, existing, updated))
    {
      var existingNorm := NormalisedTitles(existing, env.rules);
      var draftText := env.draft;
      if draftText == "" {
        return EmptyDraft;
      }
      var draftTitle := DraftTitle(draftText, theme, env.mdTitle);
      var best := MaxSimilarity(updated, SimFor(env, theme, draftText));
      if Fragments.NormTitle(draftTitle, env.rules) !in existingNorm && best.sim < env.threshold {
        return Accept(draftText, draftTitle, false);
      }
      var retryText := env.retryDraft;
      if retryText == "" {
        return EmptyRetry;
      }
      var retryTitle := DraftTitle(retryText, theme, env.mdTitle);
      var titleDup := Fragments.NormTitle(retryTitle, env.rules) in existingNorm;
      var best2 := MaxSimilarity(updated, SimFor(env, theme, retryText));
      if titleDup || best2.sim >= env.threshold {
        return Duplicate(titleDup, best2.sim);
      }
      return Accept(retryText, retryTitle, true);
    }

    /** Page assembly of an accepted draft: parse, render and number the sections, fill
        the template. */
    method PageOnce(env: Env, draft: string, draftTitle: string, theme: string) returns (html: string)
      ensures html == PageFor(draft, draftTitle, theme, env)
    {
      var parsed := ParseMarkdownSections(draft, env.mdTitle(draft), env.maxSections);
      var finalTitle := if parsed.title != "" then parsed.title else if draftTitle != "" then draftTitle else theme;
      var a := AssembleSections(parsed, env.date, finalTitle, Renderer(env));
      html := env.page(PageParts(finalTitle, env.date, a.toc, a.sectionsHtml, a.checklistHtml));
    }

    /** The writes after the gate, once the rebuilt cache is on disk: the skip record and
        the pop of a duplicate, or the checks, the page, the cache upsert and the pop. */
    method AfterGateOnce(env: Env, job: Job, updated: seq<CacheEntry>, v: Verdict, html: string) returns (outcome: Outcome)
      requires queue.List? && queue.items != [] && job == queue.items[0] && cache == CacheObject(List(Slots(updated)))
      modifies this
      ensures Snapshot() == ApplyAll(old(Snapshot()), AfterGate(old(Snapshot()), env, job, updated, v, html).effects[1..])
      ensures outcome == AfterGate(old(Snapshot()), env, job, updated, v, html).outcome
    {
      ghost var s := Snapshot();
      var q := queue.items;
      match v
      case EmptyDraft =>
        return DraftEmpty;
      case EmptyRetry =>
        return RetryDraftEmpty;
      case Duplicate(titleDup, sim) =>
        var reason := DuplicateDetected(titleDup, sim, env.threshold);
        AppendSkipRecord(job, env.now, reason);
        Perform(WriteQueue(q[1..]));
        ApplyTwo(s, WriteSkipLog(AppendSkip(s.skipped, SkipRecord(job, env.now, reason))), WriteQueue(q[1..]));
        return SkippedDuplicate;
      case Accept(_, _, _) =>
        var file := Fragments.SafeFilename(job.id, env.date, env.nowMs);
        var problem := PageProblem(html);
        if problem.Some? {
          return PageRejected(problem.value);
        }
        Perform(WritePost(file, html));
        var cur := CachedEntries(cache);
        EntriesOfSlots(updated);
        var entry := NewEntry(file, html, env);
        Perform(WriteCache(Upsert(cur, entry)));
        Perform(WriteQueue(q[1..]));
        ApplyThree(s, WritePost(file, html), WriteCache(Upsert(updated, entry)), WriteQueue(q[1..]));
        return Published(file);
    }
  }
}
