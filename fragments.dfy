/** The string transforms of the weekly generator (opt/scripts/generate_genba_weekly.js):
    the five-entity HTML escape, the clean-up of a model-written HTML fragment,
    the output file name, the memo-prefix removal on titles and the title
    normalisation used by the duplicate gate. */
module Fragments {
  import opened Text

  // ---------------------------------------------------------------------------
  // escapeHtml
  // ---------------------------------------------------------------------------

  /** The characters escapeHtml rewrites, in the order its replace calls run. */
  const Specials: seq<char> := ['&', '<', '>', '"', '\'']
  const Entities: seq<string> := ["&amp;", "&lt;", "&gt;", "&quot;", "&#39;"]

  /** The five chained global replacements of escapeHtml, `&` first. They amount to one
      pass that maps each of `& < > " '` to its entity and keeps every other character. */
  function EscapeHtml(s: string): (r: string)
    ensures r == EscapeUpTo(s, 5)
  {
    EscapeUpToZero(s);
    ReplaceStep(s, 0);
    ReplaceStep(s, 1);
    ReplaceStep(s, 2);
    ReplaceStep(s, 3);
    ReplaceStep(s, 4);
    ReplaceChar(ReplaceChar(ReplaceChar(ReplaceChar(ReplaceChar(
      s, '&', "&amp;"), '<', "&lt;"), '>', "&gt;"), '"', "&quot;"), '\'', "&#39;")
  }

  /** Decoding the five entities back, `&amp;` last. */
  function UnescapeHtml(s: string): string {
    ReplaceText(ReplaceText(ReplaceText(ReplaceText(ReplaceText(
      s, "&#39;", "'"), "&quot;", "\""), "&gt;", ">"), "&lt;", "<"), "&amp;", "&")
  }

  /** Position of `c` in Specials, or 5 when `c` is not special. */
  function SpecialIndex(c: char): (k: nat)
    ensures k <= 5
    ensures k < 5 ==> Specials[k] == c
    ensures k == 5 ==> c !in Specials
  {
    if c == '&' then 0 else if c == '<' then 1 else if c == '>' then 2
    else if c == '"' then 3 else if c == '\'' then 4 else 5
  }

  /** The single-pass reading of the escape once the first `n` replacements have run. */
  function EscapeChar(c: char, n: nat): string {
    var k := SpecialIndex(c);
    if k < n && k < 5 then Entities[k] else [c]
  }

  function EscapeUpTo(s: string, n: nat): string {
    if s == [] then [] else EscapeChar(s[0], n) + EscapeUpTo(s[1..], n)
  }

  lemma {:induction false} ReplaceCharAppend(a: string, b: string, c: char, rep: string)
    ensures ReplaceChar(a + b, c, rep) == ReplaceChar(a, c, rep) + ReplaceChar(b, c, rep)
  {
    if a != [] {
      assert (a + b)[0] == a[0];
      assert (a + b)[1..] == a[1..] + b;
      ReplaceCharAppend(a[1..], b, c, rep);
      var h := if a[0] == c then rep else [a[0]];
      calc {
        ReplaceChar(a + b, c, rep);
        h + ReplaceChar(a[1..] + b, c, rep);
        h + (ReplaceChar(a[1..], c, rep) + ReplaceChar(b, c, rep));
        (h + ReplaceChar(a[1..], c, rep)) + ReplaceChar(b, c, rep);
      }
    } else {
      assert a + b == b;
    }
  }

  lemma {:induction false} ReplaceCharAbsent(a: string, c: char, rep: string)
    requires c !in a
    ensures ReplaceChar(a, c, rep) == a
  {
    if a != [] {
      ReplaceCharAbsent(a[1..], c, rep);
    }
  }

  lemma {:induction false} EscapeUpToZero(s: string)
    ensures EscapeUpTo(s, 0) == s
  {
    if s != [] {
      EscapeUpToZero(s[1..]);
    }
  }

  /** Running the replacement for Specials[n] on the first-n escape yields the first-(n+1) escape. */
  lemma {:induction false} ReplaceStep(s: string, n: nat)
    requires n < 5
    ensures ReplaceChar(EscapeUpTo(s, n), Specials[n], Entities[n]) == EscapeUpTo(s, n + 1)
  {
    if s != [] {
      var c := s[0];
      ReplaceCharAppend(EscapeChar(c, n), EscapeUpTo(s[1..], n), Specials[n], Entities[n]);
      ReplaceStep(s[1..], n);
      if SpecialIndex(c) < n {
        var e := Entities[SpecialIndex(c)];
        assert Specials[n] !in e by {
          assert n >= 1;
        }
        ReplaceCharAbsent(e, Specials[n], Entities[n]);
      }
    }
  }

  lemma {:induction false} EscapeUpToNoMarkup(s: string)
    ensures forall i :: 0 <= i < |EscapeUpTo(s, 5)| ==> EscapeUpTo(s, 5)[i] !in "<>\"'"
  {
    if s != [] {
      EscapeUpToNoMarkup(s[1..]);
      var e := EscapeChar(s[0], 5);
      assert forall i :: 0 <= i < |e| ==> e[i] !in "<>\"'";
      assert EscapeUpTo(s, 5) == e + EscapeUpTo(s[1..], 5);
    }
  }

  /** escapeHtml output holds none of `<`, `>`, `"` and `'`. */
  lemma {:induction false} EscapeHtmlHasNoMarkup(s: string)
    ensures forall i :: 0 <= i < |EscapeHtml(s)| ==> EscapeHtml(s)[i] !in "<>\"'"
  {
    EscapeUpToNoMarkup(s);
  }

  /** A text starting with an ampersand-free piece is rewritten after that piece only. */
  lemma {:induction false} ReplaceTextSkipsPlain(y: string, t: string, p: string, rep: string)
    requires p != [] && p[0] == '&' && '&' !in y
    ensures ReplaceText(y + t, p, rep) == y + ReplaceText(t, p, rep)
  {
    if y != [] {
      assert (y + t)[0] == y[0];
      assert !StartsWith(y + t, p);
      assert (y + t)[1..] == y[1..] + t;
      ReplaceTextSkipsPlain(y[1..], t, p, rep);
      calc {
        ReplaceText(y + t, p, rep);
        [y[0]] + ReplaceText(y[1..] + t, p, rep);
        [y[0]] + (y[1..] + ReplaceText(t, p, rep));
        ([y[0]] + y[1..]) + ReplaceText(t, p, rep);
        { assert [y[0]] + y[1..] == y; }
        y + ReplaceText(t, p, rep);
      }
    } else {
      assert y + t == t;
    }
  }

  /** An entity other than `p` passes through the decoding of `p` untouched. */
  lemma {:induction false} ReplaceTextSkipsEntity(k: nat, t: string, n: nat)
    requires k < 5 && n < 5 && k != n
    ensures ReplaceText(Entities[k] + t, Entities[n], [Specials[n]]) == Entities[k] + ReplaceText(t, Entities[n], [Specials[n]])
  {
    var e, p := Entities[k], Entities[n];
    assert (e + t)[1] == e[1] && e[1] != p[1];
    assert !StartsWith(e + t, p);
    assert (e + t)[1..] == e[1..] + t;
    ReplaceTextSkipsPlain(e[1..], t, p, [Specials[n]]);
  }

  lemma {:induction false} ReplaceTextAtMatch(p: string, t: string, rep: string)
    requires p != []
    ensures ReplaceText(p + t, p, rep) == rep + ReplaceText(t, p, rep)
  {
    assert (p + t)[..|p|] == p;
    assert (p + t)[|p|..] == t;
  }

  /** Decoding Entities[n-1] undoes the replacement that introduced it. */
  lemma {:induction false} DecodeStep(s: string, n: nat)
    requires 1 <= n <= 5
    ensures ReplaceText(EscapeUpTo(s, n), Entities[n - 1], [Specials[n - 1]]) == EscapeUpTo(s, n - 1)
  {
    var p, rep := Entities[n - 1], [Specials[n - 1]];
    if s != [] {
      var c, t := s[0], EscapeUpTo(s[1..], n);
      assert EscapeUpTo(s, n) == EscapeChar(c, n) + t;
      assert EscapeUpTo(s, n - 1) == EscapeChar(c, n - 1) + EscapeUpTo(s[1..], n - 1);
      DecodeStep(s[1..], n);
      var k := SpecialIndex(c);
      if k == n - 1 {
        ReplaceTextAtMatch(p, t, rep);
      } else if k < n - 1 {
        ReplaceTextSkipsEntity(k, t, n - 1);
      } else {
        ReplaceTextSkipsPlain([c], t, p, rep);
      }
    }
  }

  /** Round trip: decoding the five entities, `&amp;` last, gives back the original text. */
  lemma {:induction false} EscapeHtmlRoundTrip(s: string)
    ensures UnescapeHtml(EscapeHtml(s)) == s
  {
    DecodeStep(s, 5);
    DecodeStep(s, 4);
    DecodeStep(s, 3);
    DecodeStep(s, 2);
    DecodeStep(s, 1);
    EscapeUpToZero(s);
  }

  // ---------------------------------------------------------------------------
  // sanitizeFragmentHtml
  // ---------------------------------------------------------------------------

  // `/^```html\s*/i` removed.
  function StripFenceOpen(s: string): string {
    if StartsWith(s, "```") && StartsWithCI(s[3..], "html") then TrimStart(s[7..]) else s
  }

  /** `/```$/i` removed. */
  function StripFenceClose(s: string): string {
    if EndsWith(s, "```") then s[..|s| - 3] else s
  }

  // `/^\s*<section[^>]*>\s*/i` removed: an opening section tag up to its first `>`.
  function StripSectionOpen(s: string): string {
    var k := LeadingSpaces(s);
    if StartsWithCI(s[k..], "<section") then SkipPast(s, '>', k + 8) else s
  }

  /** What follows the first `c` at or after `from`, start trimmed; `s` itself when there is none. */
  function SkipPast(s: string, c: char, from: nat): (r: string)
    ensures IsInfix(r, s)
  {
    match IndexOfChar(s, c, from)
    case Some(j) => SkipThenTrimStartInfix(s, j + 1); TrimStart(s[j + 1..])
    case None => SuffixInfix(s, 0); s
  }

  /** `/\s*<\/section>\s*$/i` removed: a closing section tag with only white space after it. */
  function StripSectionClose(s: string): string {
    var u := TrimEnd(s);
    if EndsWithCI(u, "</section>") then TrimEnd(u[..|u| - 10]) else s
  }

  // `/^\s*<h3[^>]*>[\s\S]*?<\/h3>\s*/i` removed: a leading h3 element up to its first closing tag.
  function StripHeadingBlock(s: string): string {
    var k := LeadingSpaces(s);
    if StartsWithCI(s[k..], "<h3") then SkipElement(s, k + 3, "</h3>") else s
  }

  /** Past the end of the opening tag whose name ends before `from`, then past the first `</h3>`. */
  function SkipElement(s: string, from: nat, close: string): (r: string)
    ensures IsInfix(r, s)
  {
    match IndexOfChar(s, '>', from)
    case Some(j) => SkipPastCI(s, close, j + 1)
    case None => SuffixInfix(s, 0); s
  }

  /** What follows the first case-insensitive `p` at or after `from`, start trimmed; `s` itself when there is none. */
  function SkipPastCI(s: string, p: string, from: nat): (r: string)
    ensures IsInfix(r, s)
  {
    match IndexOfCI(s, p, from)
    case Some(e) => SkipThenTrimStartInfix(s, e + |p|); TrimStart(s[e + |p|..])
    case None => SuffixInfix(s, 0); s
  }

  /** sanitizeFragmentHtml: code fences, a wrapping section element and a leading h3 are
      stripped. It only cuts: the result is trimmed and is a contiguous piece of the
      model's text. */
  function SanitizeFragmentHtml(raw: string): (r: string)
    ensures IsTrimmed(r)
    ensures IsInfix(r, raw)
  {
    StripFencesInfix(raw);
    StripWrappersInfix(StripFences(raw));
    InfixTrans(StripWrappers(StripFences(raw)), StripFences(raw), raw);
    StripWrappers(StripFences(raw))
  }

  /** The first three lines of sanitizeFragmentHtml: trim, remove the code fences, trim. */
  function StripFences(raw: string): string {
    Trim(StripFenceClose(StripFenceOpen(Trim(raw))))
  }

  /** The rest of sanitizeFragmentHtml: the section wrapper and a leading h3 go, then trim. */
  function StripWrappers(a: string): string {
    Trim(StripHeadingBlock(StripSectionClose(StripSectionOpen(a))))
  }

  /** `t` is a contiguous piece of `s`. */
  ghost predicate IsInfix(t: string, s: string) {
    exists i, j {:trigger InfixAt(t, s, i, j)} :: InfixAt(t, s, i, j)
  }

  /** `t` is `s[i..j]`. */
  ghost predicate InfixAt(t: string, s: string, i: int, j: int) {
    0 <= i <= j <= |s| && t == s[i..j]
  }

  lemma {:induction false} SuffixInfix(s: string, i: nat)
    requires i <= |s|
    ensures IsInfix(s[i..], s)
  {
    assert InfixAt(s[i..], s, i, |s|);
  }

  lemma {:induction false} PrefixInfix(s: string, j: nat)
    requires j <= |s|
    ensures IsInfix(s[..j], s)
  {
    assert InfixAt(s[..j], s, 0, j);
  }

  lemma {:induction false} SliceOfSlice(s: string, i: nat, j: nat, k: nat, l: nat)
    requires i <= j <= |s| && k <= l <= j - i
    ensures s[i..j][k..l] == s[i + k..i + l]
  {
    forall n | 0 <= n < l - k
      ensures s[i..j][k..l][n] == s[i + k..i + l][n]
    {
    }
  }

  lemma {:induction false} InfixTrans(a: string, b: string, c: string)
    requires IsInfix(a, b) && IsInfix(b, c)
    ensures IsInfix(a, c)
  {
    var i, j :| InfixAt(a, b, i, j);
    var k, l :| InfixAt(b, c, k, l);
    SliceOfSlice(c, k, l, i, j);
    assert InfixAt(a, c, k + i, k + j);
  }

  lemma {:induction false} TrimStartInfix(s: string)
    ensures IsInfix(TrimStart(s), s)
  {
    SuffixInfix(s, LeadingSpaces(s));
  }

  lemma {:induction false} TrimEndInfix(s: string)
    ensures IsInfix(TrimEnd(s), s)
  {
    PrefixInfix(s, SpaceRunStart(s, |s|));
  }

  lemma {:induction false} TrimInfix(s: string)
    ensures IsInfix(Trim(s), s)
  {
    var k := LeadingSpaces(s);
    assert InfixAt(Trim(s), s, k, k + |Trim(s)|);
  }

  /** Drops `s[..i]`, trims the start of what remains. */
  lemma {:induction false} SkipThenTrimStartInfix(s: string, i: nat)
    requires i <= |s|
    ensures IsInfix(TrimStart(s[i..]), s)
  {
    TrimStartInfix(s[i..]);
    SuffixInfix(s, i);
    InfixTrans(TrimStart(s[i..]), s[i..], s);
  }

  lemma {:induction false} FenceOpenInfix(s: string)
    ensures IsInfix(StripFenceOpen(s), s)
  {
    if StartsWith(s, "```") && StartsWithCI(s[3..], "html") {
      SkipThenTrimStartInfix(s, 7);
    } else {
      SuffixInfix(s, 0);
    }
  }

  lemma {:induction false} FenceCloseInfix(s: string)
    ensures IsInfix(StripFenceClose(s), s)
  {
    if EndsWith(s, "```") {
      PrefixInfix(s, |s| - 3);
    } else {
      SuffixInfix(s, 0);
    }
  }

  lemma {:induction false} SectionOpenInfix(s: string)
    ensures IsInfix(StripSectionOpen(s), s)
  {
    var k := LeadingSpaces(s);
    if !StartsWithCI(s[k..], "<section") {
      SuffixInfix(s, 0);
    }
  }

  lemma {:induction false} SectionCloseInfix(s: string)
    ensures IsInfix(StripSectionClose(s), s)
  {
    var u := TrimEnd(s);
    if EndsWithCI(u, "</section>") {
      var v := u[..|u| - 10];
      TrimEndInfix(v);
      PrefixInfix(u, |u| - 10);
      TrimEndInfix(s);
      InfixTrans(TrimEnd(v), v, u);
      InfixTrans(TrimEnd(v), u, s);
    } else {
      SuffixInfix(s, 0);
    }
  }

  lemma {:induction false} HeadingBlockInfix(s: string)
    ensures IsInfix(StripHeadingBlock(s), s)
  {
    var k := LeadingSpaces(s);
    if !StartsWithCI(s[k..], "<h3") {
      SuffixInfix(s, 0);
    }
  }

  lemma {:induction false} StripFencesInfix(raw: string)
    ensures IsInfix(StripFences(raw), raw)
  {
    var t0 := Trim(raw);
    TrimInfix(raw);
    var t1 := StripFenceOpen(t0);
    FenceOpenInfix(t0);
    InfixTrans(t1, t0, raw);
    var t2 := StripFenceClose(t1);
    FenceCloseInfix(t1);
    InfixTrans(t2, t1, raw);
    TrimInfix(t2);
    InfixTrans(Trim(t2), t2, raw);
  }

  lemma {:induction false} StripWrappersInfix(a: string)
    ensures IsInfix(StripWrappers(a), a)
  {
    var t4 := StripSectionOpen(a);
    SectionOpenInfix(a);
    var t5 := StripSectionClose(t4);
    SectionCloseInfix(t4);
    InfixTrans(t5, t4, a);
    var t6 := StripHeadingBlock(t5);
    HeadingBlockInfix(t5);
    InfixTrans(t6, t5, a);
    TrimInfix(t6);
    InfixTrans(Trim(t6), t6, a);
  }

  /** A fragment that is already bare (no fence, no section wrapper, no leading h3) is returned as the model wrote it, trimmed. */
  lemma {:induction false} SanitizeKeepsBareFragment(raw: string)
    requires var t := Trim(raw);
      !StartsWith(t, "```") && !EndsWith(t, "```") && !StartsWithCI(t, "<section")
      && !EndsWithCI(t, "</section>") && !StartsWithCI(t, "<h3")
    ensures SanitizeFragmentHtml(raw) == Trim(raw)
  {
    var t := Trim(raw);
    TrimOfTrimmed(t);
    assert LeadingSpaces(t) == 0;
    assert StripFenceOpen(t) == t;
    assert StripFenceClose(t) == t;
    assert StripSectionOpen(t) == t;
    assert SpaceRunStart(t, |t|) == |t|;
    assert TrimEnd(t) == t;
    assert StripSectionClose(t) == t;
    assert StripHeadingBlock(t) == t;
  }

  // ---------------------------------------------------------------------------
  // safeFilename
  // ---------------------------------------------------------------------------

  /** `s.replace(/\D/g, "")`: the ASCII digits of `s`, in order. */
  function DigitsOf(s: string): (r: string)
    ensures AllDigits(r) && |r| <= |s|
  {
    if s == [] then []
    else (if IsDigit(s[0]) then [s[0]] else []) + DigitsOf(s[1..])
  }

  /** `s.slice(-6)`: the last six characters, or all of a shorter string. */
  function LastSix(s: string): (r: string)
    ensures |r| == Min(6, |s|) && r == s[|s| - |r|..]
  {
    if |s| <= 6 then s else s[|s| - 6..]
  }

  /** The numeric suffix of the file name. `id` is `Some(String(job.id))` for a truthy
      job id and `None` for a falsy one; `nowMs` is `Date.now()`. */
  function FileSuffix(id: Option<string>, nowMs: nat): (short: string)
    ensures 1 <= |short| <= 6 && AllDigits(short)
    ensures id.Some? && DigitsOf(id.value) != [] ==> short == LastSix(DigitsOf(id.value))
    ensures id.None? || DigitsOf(id.value) == [] ==> short == LastSix(NatToString(nowMs))
  {
    DigitsOfDigits(NatToString(nowMs));
    var fromId := LastSix(DigitsOf(match id case Some(t) => t case None => NatToString(nowMs)));
    if fromId != [] then fromId else LastSix(NatToString(nowMs))
  }

  lemma {:induction false} DigitsOfDigits(s: string)
    requires AllDigits(s)
    ensures DigitsOf(s) == s
  {
    if s != [] {
      DigitsOfDigits(s[1..]);
    }
  }

  /** safeFilename: `genba_<date>_<short>.html`, where `date` is the JST date string. */
  function SafeFilename(id: Option<string>, date: string, nowMs: nat): (name: string)
    ensures StartsWith(name, "genba_" + date + "_") && EndsWith(name, ".html")
    ensures |name| == 12 + |date| + |FileSuffix(id, nowMs)|
    ensures name[7 + |date|..|name| - 5] == FileSuffix(id, nowMs)
  {
    var name := "genba_" + date + "_" + FileSuffix(id, nowMs) + ".html";
    assert name[..7 + |date|] == "genba_" + date + "_";
    assert name[|name| - 5..] == ".html";
    name
  }

  /** Two jobs whose ids end in the same six digits get the same file name on the same day. */
  lemma {:induction false} SafeFilenameCollision(a: string, b: string, date: string, nowMs: nat)
    requires |DigitsOf(a)| >= 6 && LastSix(DigitsOf(a)) == LastSix(DigitsOf(b))
    ensures SafeFilename(Some(a), date, nowMs) == SafeFilename(Some(b), date, nowMs)
  {
  }

  // ---------------------------------------------------------------------------
  // removeGenbaMemoPrefixTitleText
  // ---------------------------------------------------------------------------

  const MemoPrefix: string := "現場メモ"

  // `/^\s*現場メモ\s*[:：]\s*/i` removed, then the result trimmed.
  function RemoveMemoPrefix(t: string): (r: string)
    ensures IsTrimmed(r)
  {
    var a := TrimStart(t);
    if StartsWith(a, MemoPrefix) then
      var b := TrimStart(a[|MemoPrefix|..]);
      if b != [] && (b[0] == ':' || b[0] == '：') then Trim(b[1..]) else Trim(t)
    else Trim(t)
  }

  /** White space in front of a non-space character is all that trimStart removes. */
  lemma {:induction false} TrimStartPast(lead: string, t: string)
    requires AllSpace(lead) && t != [] && !IsSpace(t[0])
    ensures TrimStart(lead + t) == t
  {
    var s := lead + t;
    var k := LeadingSpaces(s);
    assert s[|lead|] == t[0];
    assert k == |lead|;
    assert s[|lead|..] == t;
  }

  /** `現場メモ：` or `現場メモ:` with any white space around it is cut from the front of a
      title, and what follows is trimmed. */
  lemma {:induction false} MemoPrefixRemoved(lead: string, gap: string, colon: char, rest: string)
    requires AllSpace(lead) && AllSpace(gap) && (colon == ':' || colon == '：')
    ensures RemoveMemoPrefix(lead + MemoPrefix + gap + [colon] + rest) == Trim(rest)
  {
    var t := lead + MemoPrefix + gap + [colon] + rest;
    var tail := gap + [colon] + rest;
    assert t == lead + (MemoPrefix + tail);
    TrimStartPast(lead, MemoPrefix + tail);
    var a := MemoPrefix + tail;
    assert StartsWith(a, MemoPrefix);
    assert a[|MemoPrefix|..] == gap + ([colon] + rest);
    TrimStartPast(gap, [colon] + rest);
    assert ([colon] + rest)[1..] == rest;
  }

  // ---------------------------------------------------------------------------
  // normTitle
  // ---------------------------------------------------------------------------

  /** The two Unicode facilities normTitle relies on, kept abstract: `toLowerCase`
      read one character at a time, and membership in `\p{L}` or `\p{N}`. */
  datatype CharRules = CharRules(lower: char -> char, isLetterOrNumber: char -> bool)

  function LowerAll(s: string, rules: CharRules): (r: string)
    ensures |r| == |s| && forall i :: 0 <= i < |s| ==> r[i] == rules.lower(s[i])
  {
    if s == [] then [] else [rules.lower(s[0])] + LowerAll(s[1..], rules)
  }

  predicate IsDash(c: char) {
    c == '—' || c == '–'
  }

  /** `.replace(/[—–-]/g, "-")`. */
  function UnifyDashes(s: string): (r: string)
    ensures |r| == |s| && forall i :: 0 <= i < |s| ==> r[i] == if IsDash(s[i]) then '-' else s[i]
  {
    if s == [] then []
    else [if IsDash(s[0]) then '-' else s[0]] + UnifyDashes(s[1..])
  }

  /** `.replace(/\s+/g, " ")`: each maximal run of white space becomes one space. */
  function CollapseSpaces(s: string): string
    decreases |s|
  {
    if s == [] then []
    else if IsSpace(s[0]) then " " + CollapseSpaces(s[LeadingSpaces(s)..])
    else [s[0]] + CollapseSpaces(s[1..])
  }

  /** `.replace(/[^\p{L}\p{N}\s-]/gu, "")`. */
  function KeepTitleChars(s: string, rules: CharRules): string {
    if s == [] then []
    else (if IsTitleChar(s[0], rules) then [s[0]] else []) + KeepTitleChars(s[1..], rules)
  }

  predicate IsTitleChar(c: char, rules: CharRules) {
    rules.isLetterOrNumber(c) || IsSpace(c) || c == '-'
  }

  /** No en or em dash. */
  predicate NoDash(s: string) {
    forall i :: 0 <= i < |s| ==> !IsDash(s[i])
  }

  /** Collapsing white space brings in no dash. */
  lemma {:induction false} CollapseKeepsNoDash(s: string)
    requires NoDash(s)
    ensures NoDash(CollapseSpaces(s))
    decreases |s|
  {
    if s != [] {
      var k := if IsSpace(s[0]) then LeadingSpaces(s) else 1;
      assert NoDash(s[k..]);
      CollapseKeepsNoDash(s[k..]);
    }
  }

  /** The character filter keeps title characters only, and brings in no dash. */
  lemma {:induction false} KeepTitleCharsSound(s: string, rules: CharRules)
    requires NoDash(s)
    ensures NoDash(KeepTitleChars(s, rules))
    ensures forall i :: 0 <= i < |KeepTitleChars(s, rules)| ==> IsTitleChar(KeepTitleChars(s, rules)[i], rules)
    decreases |s|
  {
    if s != [] {
      assert NoDash(s[1..]);
      KeepTitleCharsSound(s[1..], rules);
    }
  }

  /** normTitle. Spaces are collapsed before punctuation is removed. The result is
      trimmed, holds letters, numbers, white space and hyphens only, and no en or em
      dash is left. */
  function NormTitle(s: string, rules: CharRules): (r: string)
    ensures IsTrimmed(r)
    ensures NoDash(r)
    ensures forall i :: 0 <= i < |r| ==> IsTitleChar(r[i], rules)
  {
    var c := CollapseSpaces(UnifyDashes(LowerAll(s, rules)));
    CollapseKeepsNoDash(UnifyDashes(LowerAll(s, rules)));
    KeepTitleCharsSound(c, rules);
    var k := KeepTitleChars(c, rules);
    var r := Trim(k);
    assert forall i :: 0 <= i < |r| ==> r[i] == k[LeadingSpaces(k) + i];
    r
  }

  lemma {:induction false} KeepCons(c: char, t: string, rules: CharRules)
    ensures KeepTitleChars([c] + t, rules) == (if IsTitleChar(c, rules) then [c] else []) + KeepTitleChars(t, rules)
  {
    assert ([c] + t)[1..] == t;
  }

  /** A white-space character followed by a non-space collapses to one space. */
  lemma {:induction false} CollapseOneSpace(c: char, t: string)
    requires IsSpace(c) && (t == [] || !IsSpace(t[0]))
    ensures CollapseSpaces([c] + t) == " " + CollapseSpaces(t)
  {
    assert LeadingSpaces([c] + t) == 1 by {
      assert ([c] + t)[1..] == t;
    }
    assert ([c] + t)[1..] == t;
  }

  /** Two white-space characters followed by a non-space collapse to one space. */
  lemma {:induction false} CollapseTwoSpaces(c: char, d: char, t: string)
    requires IsSpace(c) && IsSpace(d) && (t == [] || !IsSpace(t[0]))
    ensures CollapseSpaces([c, d] + t) == " " + CollapseSpaces(t)
  {
    assert ([c, d] + t)[1..] == [d] + t;
    assert ([d] + t)[1..] == t;
    assert LeadingSpaces([c, d] + t) == 2;
    assert ([c, d] + t)[2..] == t;
  }

  lemma {:induction false} CollapseNonSpace(c: char, t: string)
    requires !IsSpace(c)
    ensures CollapseSpaces([c] + t) == [c] + CollapseSpaces(t)
  {
    assert ([c] + t)[1..] == t;
  }

  /** The letters used in the examples below: their own lower case, letters, not white space, not dashes. */
  predicate PlainLetter(c: char, rules: CharRules) {
    rules.lower(c) == c && rules.isLetterOrNumber(c) && !IsSpace(c) && !IsDash(c) && c != '-'
  }

  /** The punctuation used in the examples below is its own lower case, and `!` is neither letter nor number. */
  predicate PlainPunctuation(rules: CharRules) {
    rules.lower(' ') == ' ' && rules.lower('!') == '!' && rules.lower('-') == '-' && !rules.isLetterOrNumber('!')
  }

  lemma {:induction false} CollapseOfBang(x: char, y: char)
    requires !IsSpace(x) && !IsSpace(y)
    ensures CollapseSpaces([x, ' ', '!', ' ', y]) == [x, ' ', '!', ' ', y]
  {
    assert [y] + [] == [y];
    CollapseNonSpace(y, []);
    assert [' '] + [y] == [' ', y];
    CollapseOneSpace(' ', [y]);
    assert ['!'] + [' ', y] == ['!', ' ', y];
    CollapseNonSpace('!', [' ', y]);
    assert [' '] + ['!', ' ', y] == [' ', '!', ' ', y];
    CollapseOneSpace(' ', ['!', ' ', y]);
    assert [x] + [' ', '!', ' ', y] == [x, ' ', '!', ' ', y];
    CollapseNonSpace(x, [' ', '!', ' ', y]);
  }

  lemma {:induction false} KeepOfBang(rules: CharRules, x: char, y: char)
    requires PlainLetter(x, rules) && PlainLetter(y, rules) && PlainPunctuation(rules)
    ensures KeepTitleChars([x, ' ', '!', ' ', y], rules) == [x, ' ', ' ', y]
  {
    assert [y] + [] == [y];
    KeepCons(y, [], rules);
    assert [' '] + [y] == [' ', y];
    KeepCons(' ', [y], rules);
    assert KeepTitleChars([' ', y], rules) == [' ', y];
    assert !IsTitleChar('!', rules);
    assert ['!'] + [' ', y] == ['!', ' ', y];
    KeepCons('!', [' ', y], rules);
    assert KeepTitleChars(['!', ' ', y], rules) == [' ', y];
    assert [' '] + ['!', ' ', y] == [' ', '!', ' ', y];
    KeepCons(' ', ['!', ' ', y], rules);
    assert KeepTitleChars([' ', '!', ' ', y], rules) == [' ', ' ', y];
    assert [x] + [' ', '!', ' ', y] == [x, ' ', '!', ' ', y];
    KeepCons(x, [' ', '!', ' ', y], rules);
  }

  /** Removing the `!` of `x ! y` after the spaces were collapsed leaves two spaces. */
  lemma {:induction false} NormTitleOfBang(rules: CharRules, x: char, y: char)
    requires PlainLetter(x, rules) && PlainLetter(y, rules) && PlainPunctuation(rules)
    ensures NormTitle([x, ' ', '!', ' ', y], rules) == [x, ' ', ' ', y]
  {
    var s := [x, ' ', '!', ' ', y];
    assert LowerAll(s, rules) == s;
    assert UnifyDashes(s) == s;
    CollapseOfBang(x, y);
    KeepOfBang(rules, x, y);
    TrimOfTrimmed([x, ' ', ' ', y]);
  }

  lemma {:induction false} NormTitleOfTwoSpaces(rules: CharRules, x: char, y: char)
    requires PlainLetter(x, rules) && PlainLetter(y, rules) && PlainPunctuation(rules)
    ensures NormTitle([x, ' ', ' ', y], rules) == [x, ' ', y]
  {
    var t := [x, ' ', ' ', y];
    assert LowerAll(t, rules) == t;
    assert UnifyDashes(t) == t;
    assert [' ', ' '] + [y] == [' ', ' ', y];
    CollapseTwoSpaces(' ', ' ', [y]);
    assert [x] + [' ', ' ', y] == [x, ' ', ' ', y];
    CollapseNonSpace(x, [' ', ' ', y]);
    assert [y] + [] == [y];
    CollapseNonSpace(y, []);
    var u := [x, ' ', y];
    assert CollapseSpaces(t) == u;
    KeepOfSpaced(rules, x, y);
    TrimOfTrimmed(u);
  }

  /** normTitle is not idempotent: for any two plain letters `x` and `y`, normalising
      `x ! y` twice gives `x y` while normalising it once gives `x  y`. */
  lemma {:induction false} NormTitleNotIdempotent(rules: CharRules, x: char, y: char)
    requires PlainLetter(x, rules) && PlainLetter(y, rules) && PlainPunctuation(rules)
    ensures NormTitle(NormTitle([x, ' ', '!', ' ', y], rules), rules) != NormTitle([x, ' ', '!', ' ', y], rules)
  {
    NormTitleOfBang(rules, x, y);
    NormTitleOfTwoSpaces(rules, x, y);
    assert |[x, ' ', y]| != |[x, ' ', ' ', y]|;
  }

  lemma {:induction false} KeepOfSpaced(rules: CharRules, x: char, y: char)
    requires PlainLetter(x, rules) && PlainLetter(y, rules)
    ensures KeepTitleChars([x, ' ', y], rules) == [x, ' ', y]
  {
    assert [y] + [] == [y];
    KeepCons(y, [], rules);
    assert [' '] + [y] == [' ', y];
    KeepCons(' ', [y], rules);
    assert [x] + [' ', y] == [x, ' ', y];
    KeepCons(x, [' ', y], rules);
  }

  lemma {:induction false} CollapseOfHyphenated(x: char, y: char)
    requires !IsSpace(x) && !IsSpace(y)
    ensures CollapseSpaces([x, '-', y, '!']) == [x, '-', y, '!']
  {
    assert ['!'] + [] == ['!'];
    CollapseNonSpace('!', []);
    assert [y] + ['!'] == [y, '!'];
    CollapseNonSpace(y, ['!']);
    assert ['-'] + [y, '!'] == ['-', y, '!'];
    CollapseNonSpace('-', [y, '!']);
    assert [x] + ['-', y, '!'] == [x, '-', y, '!'];
    CollapseNonSpace(x, ['-', y, '!']);
  }

  lemma {:induction false} KeepOfHyphenated(rules: CharRules, x: char, y: char)
    requires PlainLetter(x, rules) && PlainLetter(y, rules) && PlainPunctuation(rules)
    ensures KeepTitleChars([x, '-', y, '!'], rules) == [x, '-', y]
  {
    KeepOfLetterBang(rules, y);
    assert ['-'] + [y, '!'] == ['-', y, '!'];
    KeepCons('-', [y, '!'], rules);
    assert KeepTitleChars(['-', y, '!'], rules) == ['-', y];
    assert [x] + ['-', y, '!'] == [x, '-', y, '!'];
    KeepCons(x, ['-', y, '!'], rules);
  }

  lemma {:induction false} KeepOfLetterBang(rules: CharRules, y: char)
    requires PlainLetter(y, rules) && PlainPunctuation(rules)
    ensures KeepTitleChars([y, '!'], rules) == [y]
  {
    assert ['!'] + [] == ['!'];
    KeepCons('!', [], rules);
    assert KeepTitleChars(['!'], rules) == [];
    assert [y] + ['!'] == [y, '!'];
    KeepCons(y, ['!'], rules);
  }

  lemma {:induction false} NormTitleOfHyphenated(rules: CharRules, x: char, y: char)
    requires PlainLetter(x, rules) && PlainLetter(y, rules) && PlainPunctuation(rules)
    ensures NormTitle([x, '-', y, '!'], rules) == [x, '-', y]
  {
    var s := [x, '-', y, '!'];
    assert LowerAll(s, rules) == s;
    assert UnifyDashes(s) == s;
    CollapseOfHyphenated(x, y);
    KeepOfHyphenated(rules, x, y);
    TrimOfTrimmed([x, '-', y]);
  }

  lemma {:induction false} NormTitleOfSpaced(rules: CharRules, x: char, y: char)
    requires PlainLetter(x, rules) && PlainLetter(y, rules) && PlainPunctuation(rules)
    ensures NormTitle([x, ' ', y], rules) == [x, ' ', y]
  {
    var u := [x, ' ', y];
    assert LowerAll(u, rules) == u;
    assert UnifyDashes(u) == u;
    assert [y] + [] == [y];
    CollapseNonSpace(y, []);
    assert [' '] + [y] == [' ', y];
    CollapseOneSpace(' ', [y]);
    assert [x] + [' ', y] == u;
    CollapseNonSpace(x, [' ', y]);
    assert CollapseSpaces(u) == u;
    KeepOfSpaced(rules, x, y);
    TrimOfTrimmed(u);
  }

  /** normTitle keeps a hyphen and drops other punctuation without leaving a space, so
      `x-y!` and `x y` normalise to different titles. */
  lemma {:induction false} NormTitleKeepsHyphen(rules: CharRules, x: char, y: char)
    requires PlainLetter(x, rules) && PlainLetter(y, rules) && PlainPunctuation(rules)
    ensures NormTitle([x, '-', y, '!'], rules) != NormTitle([x, ' ', y], rules)
  {
    NormTitleOfHyphenated(rules, x, y);
    NormTitleOfSpaced(rules, x, y);
    assert [x, '-', y][1] != [x, ' ', y][1];
  }
}
