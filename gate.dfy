/** The duplicate gate in main: a draft is a duplicate when its normalised title is
    already the title of a published article, or when the best-scoring cached article is
    at least as similar as the threshold. A duplicate first draft earns exactly one
    retry; a duplicate retry makes the job a skip. */
module DraftGate {
  import opened Text
  import Fragments
  import opened Similarity

  /** What the gate judges a draft against: the normalised titles of the published
      articles, DUP_TH, the character rules of normTitle, extractMarkdownTitle, and the
      best cached match of a draft (maxSimilarityForDraft). */
  datatype Judge = Judge(
    existingNorm: set<string>,
    threshold: real,
    rules: Fragments.CharRules,
    mdTitle: string -> string,
    bestFor: string -> Best)

  /** How the gate ends. `Accept` carries the draft that goes on, its title, and whether it
      came from the retry; `Duplicate` carries the two facts the skip reason reports. */
  datatype Verdict =
    | EmptyDraft
    | EmptyRetry
    | Duplicate(titleDup: bool, sim: real)
    | Accept(draft: string, title: string, retried: bool)

  /** `removeGenbaMemoPrefixTitleText(extractMarkdownTitle(draft) || theme)`. */
  function DraftTitle(draft: string, theme: string, mdTitle: string -> string): (t: string)
    ensures IsTrimmed(t)
  {
    Fragments.RemoveMemoPrefix(if mdTitle(draft) != "" then mdTitle(draft) else theme)
  }

  /** The test on line 506 and again on line 535. */
  predicate IsDuplicate(draft: string, theme: string, j: Judge) {
    Fragments.NormTitle(DraftTitle(draft, theme, j.mdTitle), j.rules) in j.existingNorm
    || j.bestFor(draft).sim >= j.threshold
  }

  /** The gate. `first` and `retry` are the texts of the draft and draft-retry calls; the
      retry text is only looked at when the first draft is a duplicate: the verdict
      depends on it exactly when the first draft is a non-empty duplicate. */
  function Decide(first: string, retry: string, theme: string, j: Judge): (v: Verdict)
    ensures v.EmptyDraft? <==> first == ""
    ensures v.EmptyRetry? || v.Duplicate? || (v.Accept? && v.retried) <==> first != "" && IsDuplicate(first, theme, j)
  {
    if first == "" then EmptyDraft
    else if !IsDuplicate(first, theme, j) then Accept(first, DraftTitle(first, theme, j.mdTitle), false)
    else if retry == "" then EmptyRetry
    else if IsDuplicate(retry, theme, j) then
      Duplicate(Fragments.NormTitle(DraftTitle(retry, theme, j.mdTitle), j.rules) in j.existingNorm, j.bestFor(retry).sim)
    else Accept(retry, DraftTitle(retry, theme, j.mdTitle), true)
  }

  /** Whatever the gate lets through is a non-empty draft that is not a duplicate, titled
      as the source titles it, and it is the retry exactly when the first draft was a
      duplicate. */
  lemma {:induction false} AcceptedIsFresh(first: string, retry: string, theme: string, j: Judge)
    requires Decide(first, retry, theme, j).Accept?
    ensures var v := Decide(first, retry, theme, j);
      && v.draft != ""
      && !IsDuplicate(v.draft, theme, j)
      && v.title == DraftTitle(v.draft, theme, j.mdTitle)
      && (v.retried <==> IsDuplicate(first, theme, j))
      && v.draft == (if v.retried then retry else first)
  {
  }

  /** A skip is reported only when both drafts were duplicates, and its reason states the
      retry's title test and best score. */
  lemma {:induction false} SkipOnlyWhenBothDuplicate(first: string, retry: string, theme: string, j: Judge)
    requires Decide(first, retry, theme, j).Duplicate?
    ensures first != "" && retry != ""
    ensures IsDuplicate(first, theme, j) && IsDuplicate(retry, theme, j)
    ensures var v := Decide(first, retry, theme, j);
      v.sim == j.bestFor(retry).sim && (v.titleDup || v.sim >= j.threshold)
  {
  }

  /** A fresh first draft is used as it is, whatever the retry would have said: the retry
      call is made only for a duplicate. */
  lemma {:induction false} FreshFirstDraftNeedsNoRetry(first: string, retry: string, other: string, theme: string, j: Judge)
    requires first != "" && !IsDuplicate(first, theme, j)
    ensures Decide(first, retry, theme, j) == Decide(first, other, theme, j) == Accept(first, DraftTitle(first, theme, j.mdTitle), false)
  {
  }

  /** Raising the threshold never turns an accepted first draft into a retry. */
  lemma {:induction false} HigherThresholdKeepsFirstDraft(first: string, retry: string, theme: string, j: Judge, th: real)
    requires th >= j.threshold && Decide(first, retry, theme, j) == Accept(first, DraftTitle(first, theme, j.mdTitle), false)
    ensures Decide(first, retry, theme, j.(threshold := th)) == Accept(first, DraftTitle(first, theme, j.mdTitle), false)
  {
  }
}
