/** parseMarkdownSections of opt/scripts/generate_genba_weekly.js: the draft is split
    into lines, every line of the shape `## heading` opens a section whose body is
    the lines up to the next heading, the first table-of-contents section is
    dropped, the first checklist section is set aside and the rest is capped. */
module MarkdownSections {
  import opened Text
  import Fragments

  datatype Section = Section(heading: string, body: string)

  /** A section still being read: its captured heading and the body lines so far. */
  datatype Pending = Pending(heading: string, bodyLines: seq<string>)

  datatype ParsedDraft = ParsedDraft(title: string, dateLine: string, mainSections: seq<Section>, checklist: Option<Section>)

  const DefaultMaxSections: nat := 12
  const TocKey: string := "目次"
  const ChecklistKey: string := "チェックリスト"

  // ---------------------------------------------------------------------------
  // Lines: `s.split(/\r?\n/)`
  // ---------------------------------------------------------------------------

  predicate NoNewline(s: string) {
    forall i :: 0 <= i < |s| ==> s[i] != '\n'
  }

  /** The pieces of `s` between line feeds. */
  function SplitOnNewline(s: string): (r: seq<string>)
    ensures |r| >= 1
    ensures forall i :: 0 <= i < |r| ==> NoNewline(r[i])
    decreases |s|
  {
    match IndexOfChar(s, '\n', 0)
    case None => [s]
    case Some(i) => [s[..i]] + SplitOnNewline(s[i + 1..])
  }

  /** Joining the pieces with line feeds gives the text back. */
  lemma {:induction false} SplitOnNewlineRoundTrip(s: string)
    ensures JoinLines(SplitOnNewline(s)) == s
    decreases |s|
  {
    match IndexOfChar(s, '\n', 0)
    case None =>
    case Some(i) =>
      var rest := SplitOnNewline(s[i + 1..]);
      SplitOnNewlineRoundTrip(s[i + 1..]);
      assert SplitOnNewline(s) == [s[..i]] + rest;
      assert (([s[..i]] + rest)[1..]) == rest;
      assert s == s[..i] + "\n" + s[i + 1..];
  }

  /** A carriage return just before a line feed belongs to the separator. */
  function DropCR(piece: string): (r: string)
    ensures r == piece || (piece == r + "\r")
  {
    if |piece| > 0 && piece[|piece| - 1] == '\r' then piece[..|piece| - 1] else piece
  }

  /** `s.split(/\r?\n/)`: every piece followed by a separator loses one trailing `\r`; the last piece keeps it. */
  function Lines(s: string): (lines: seq<string>)
    ensures |lines| == |SplitOnNewline(s)|
    ensures forall i :: 0 <= i < |lines| ==> NoNewline(lines[i])
  {
    var pieces := SplitOnNewline(s);
    seq(|pieces|, i requires 0 <= i < |pieces| => if i + 1 < |pieces| then DropCR(pieces[i]) else pieces[i])
  }

  // ---------------------------------------------------------------------------
  // The heading pattern `/^\s*##\s+(.+?)\s*$/` on one line
  // ---------------------------------------------------------------------------

  predicate NoTerminator(s: string) {
    forall i :: 0 <= i < |s| ==> !IsLineTerminator(s[i])
  }

  /** The largest index `i >= 1` with `s[i]` not a line terminator. */
  function LastPlainIndex(s: string, to: nat): (r: Option<nat>)
    requires to <= |s|
    ensures r.Some? ==> 1 <= r.value < to && !IsLineTerminator(s[r.value])
    ensures r.Some? ==> forall j :: r.value < j < to ==> IsLineTerminator(s[j])
    ensures r.None? ==> forall j :: 1 <= j < to ==> IsLineTerminator(s[j])
  {
    if to <= 1 then None
    else if !IsLineTerminator(s[to - 1]) then Some(to - 1)
    else LastPlainIndex(s, to - 1)
  }

  /** The group captured by `/^\s*##\s+(.+?)\s*$/` on `line`, or None when the line does not match.
      After `##` the pattern needs at least one white-space character. When the rest holds a
      non-space character, the greedy `\s+` takes the whole run of white space and the lazy
      group stops at the last non-space character; the group may not cross a line terminator.
      When the rest is all white space, `\s+` gives back its last character that is not a line
      terminator, and the group is that one character. */
  function HeadingCapture(line: string): (r: Option<string>)
    ensures r.Some? ==> r.value != [] && NoTerminator(r.value)
  {
    var k := LeadingSpaces(line);
    if k + 3 <= |line| && line[k] == '#' && line[k + 1] == '#' && IsSpace(line[k + 2]) then
      var rest := line[k + 2..];
      var n := LeadingSpaces(rest);
      if n < |rest| then
        var e := SpaceRunStart(rest, |rest|);
        if NoTerminator(rest[n..e]) then Some(rest[n..e]) else None
      else
        match LastPlainIndex(rest, |rest|)
        case Some(i) => Some([rest[i]])
        case None => None
    else None
  }

  predicate IsHeadingLine(line: string) {
    HeadingCapture(line).Some?
  }

  /** The regex reading of a match: `line[..a]` is white space, `##` follows, then the
      white space `line[a + 2..b]` (at least one character), the group `line[b..e]` (no line
      terminator, at least one character) and white space to the end. */
  ghost predicate MatchesAt(line: string, a: nat, b: nat, e: nat) {
    a + 2 < b < e <= |line|
    && AllSpace(line[..a]) && line[a] == '#' && line[a + 1] == '#'
    && AllSpace(line[a + 2..b]) && NoTerminator(line[b..e]) && AllSpace(line[e..])
  }

  /** A captured group is a match of the pattern. */
  lemma {:induction false} HeadingCaptureSound(line: string) returns (a: nat, b: nat, e: nat)
    requires IsHeadingLine(line)
    ensures MatchesAt(line, a, b, e) && HeadingCapture(line).value == line[b..e]
  {
    a := LeadingSpaces(line);
    var rest := line[a + 2..];
    var n := LeadingSpaces(rest);
    if n < |rest| {
      var j := SpaceRunStart(rest, |rest|);
      b, e := a + 2 + n, a + 2 + j;
      assert rest[n..j] == line[b..e];
    } else {
      var i := LastPlainIndex(rest, |rest|).value;
      b, e := a + 2 + i, a + 2 + i + 1;
      assert [rest[i]] == line[b..e];
    }
  }

  /** Every line that matches the pattern has a captured group. */
  lemma {:induction false} HeadingCaptureComplete(line: string, a: nat, b: nat, e: nat)
    requires MatchesAt(line, a, b, e)
    ensures IsHeadingLine(line)
  {
    assert forall i :: 0 <= i < a ==> IsSpace(line[i]) by {
      forall i | 0 <= i < a ensures IsSpace(line[i]) {
        assert line[..a][i] == line[i];
      }
    }
    assert !IsSpace(line[a]);
    assert LeadingSpaces(line) == a;
    assert IsSpace(line[a + 2]) by {
      assert line[a + 2..b][0] == line[a + 2];
    }
    var rest := line[a + 2..];
    var b', e' := b - (a + 2), e - (a + 2);
    assert forall i :: 0 <= i < b' ==> IsSpace(rest[i]) by {
      forall i | 0 <= i < b' ensures IsSpace(rest[i]) {
        assert line[a + 2..b][i] == rest[i];
      }
    }
    assert forall i :: e' <= i < |rest| ==> IsSpace(rest[i]) by {
      forall i | e' <= i < |rest| ensures IsSpace(rest[i]) {
        assert line[e..][i - e'] == rest[i];
      }
    }
    assert forall i :: b' <= i < e' ==> !IsLineTerminator(rest[i]) by {
      forall i | b' <= i < e' ensures !IsLineTerminator(rest[i]) {
        assert line[b..e][i - b'] == rest[i];
      }
    }
    var n := LeadingSpaces(rest);
    if n < |rest| {
      var j := SpaceRunStart(rest, |rest|);
      assert b' <= n && j <= e';
      assert NoTerminator(rest[n..j]) by {
        forall i | 0 <= i < j - n ensures !IsLineTerminator(rest[n..j][i]) {
          assert rest[n..j][i] == rest[n + i];
        }
      }
    } else {
      assert !IsLineTerminator(rest[e' - 1]);
      assert LastPlainIndex(rest, |rest|).Some?;
    }
  }

  /** The trimmed heading is the text after `##`, trimmed. */
  lemma {:induction false} HeadingIsTrimmedRest(line: string)
    requires IsHeadingLine(line)
    ensures Trim(HeadingCapture(line).value) == Trim(line[LeadingSpaces(line) + 2..])
  {
    var k := LeadingSpaces(line);
    var rest := line[k + 2..];
    var n := LeadingSpaces(rest);
    var c := HeadingCapture(line).value;
    if n < |rest| {
      var j := SpaceRunStart(rest, |rest|);
      assert c == rest[n..j];
      TrimOfTrimmed(c);
      TrimIsCore(rest, n, j);
    } else {
      assert AllSpace(rest);
      assert AllSpace(c);
    }
  }

  /** Trimming a text whose white-space runs end at `n` and start at `j` leaves `s[n..j]`. */
  lemma {:induction false} TrimIsCore(s: string, n: nat, j: nat)
    requires n < |s| && n == LeadingSpaces(s) && j == SpaceRunStart(s, |s|)
    ensures n < j && Trim(s) == s[n..j]
  {
  }

  // ---------------------------------------------------------------------------
  // Splitting lines into sections
  // ---------------------------------------------------------------------------

  /** The captured group of every line, None for the lines that are not headings. */
  function Captures(lines: seq<string>): (caps: seq<Option<string>>)
    ensures |caps| == |lines|
  {
    seq(|lines|, i requires 0 <= i < |lines| => HeadingCapture(lines[i]))
  }

  /** The indices below `n` of heading lines, in increasing order. */
  function HeadingIndices(caps: seq<Option<string>>, n: nat): (hs: seq<nat>)
    requires n <= |caps|
    ensures forall j :: 0 <= j < |hs| ==> hs[j] < n && caps[hs[j]].Some?
    ensures forall j :: 0 <= j < |hs| - 1 ==> Before(hs, j)
  {
    if n == 0 then []
    else
      var hs := HeadingIndices(caps, n - 1);
      if caps[n - 1].Some? then BeforeSnoc(hs, n - 1); hs + [n - 1] else hs
  }

  lemma {:induction false} BeforeSnoc(hs: seq<nat>, x: nat)
    requires forall j :: 0 <= j < |hs| - 1 ==> Before(hs, j)
    requires forall j :: 0 <= j < |hs| ==> hs[j] < x
    ensures forall j :: 0 <= j < |hs| ==> Before(hs + [x], j)
  {
    forall j | 0 <= j < |hs| ensures Before(hs + [x], j) {
      if j < |hs| - 1 {
        assert Before(hs, j);
      }
    }
  }

  /** The heading line `a` and the body lines after it, up to line `b`. */
  function PendingAt(lines: seq<string>, caps: seq<Option<string>>, a: nat, b: nat): (p: Pending)
    requires |caps| == |lines| && a < b <= |lines| && caps[a].Some?
    ensures |p.bodyLines| == b - a - 1
  {
    Pending(caps[a].value, lines[a + 1..b])
  }

  /** pushCur: the heading and the joined body lines, both trimmed. */
  function Close(p: Pending): (s: Section)
    ensures IsTrimmed(s.heading) && IsTrimmed(s.body)
  {
    Section(Trim(p.heading), Trim(JoinLines(p.bodyLines)))
  }

  /** Every pending section closed, in order. */
  function CloseAll(ps: seq<Pending>): (ss: seq<Section>)
    ensures |ss| == |ps|
  {
    seq(|ps|, j requires 0 <= j < |ps| => Close(ps[j]))
  }

  lemma {:induction false} CloseAllSnoc(ps: seq<Pending>, p: Pending)
    ensures CloseAll(ps + [p]) == CloseAll(ps) + [Close(p)]
  {
    var l, r := CloseAll(ps + [p]), CloseAll(ps) + [Close(p)];
    forall j | 0 <= j < |l| ensures l[j] == r[j] {
      assert (ps + [p])[j] == if j < |ps| then ps[j] else p;
    }
  }

  /** The heading index at `j` comes before the next one. */
  predicate Before(hs: seq<nat>, j: int) {
    0 <= j && j + 1 < |hs| && hs[j] < hs[j + 1]
  }

  /** Where the section opened at heading index `j` of `hs` ends: at the next heading, or
      at `n`, the end of the lines read. */
  function SectionEnd(hs: seq<nat>, j: nat, n: nat): nat
    requires j < |hs| && (j + 1 < |hs| ==> Before(hs, j))
  {
    if j + 1 < |hs| then hs[j + 1] else n
  }

  /** The pending sections of `lines` given the captures `caps` of its lines. */
  function PendingsWith(lines: seq<string>, caps: seq<Option<string>>): (ps: seq<Pending>)
    requires |caps| == |lines|
    ensures |ps| == |HeadingIndices(caps, |lines|)|
  {
    var hs := HeadingIndices(caps, |lines|);
    seq(|hs|, j requires 0 <= j < |hs| => PendingAt(lines, caps, hs[j], SectionEnd(hs, j, |lines|)))
  }

  /** The sections of `lines` given the captures `caps` of its lines. */
  function SplitWith(lines: seq<string>, caps: seq<Option<string>>): (ss: seq<Section>)
    requires |caps| == |lines|
    ensures |ss| == |HeadingIndices(caps, |lines|)|
  {
    CloseAll(PendingsWith(lines, caps))
  }

  /** The sections of `lines`: one per heading line, in document order, each holding the
      lines up to the next heading; lines before the first heading belong to none. */
  function SplitSpec(lines: seq<string>): seq<Section> {
    SplitWith(lines, Captures(lines))
  }

  /** What the loop knows after reading `lines[..p]`: before any heading nothing is open;
      afterwards the last heading read is open with the lines after it, and each earlier
      heading's section has been pushed (as the pending sections `pend`, before closing). */
  ghost predicate SplitInv(lines: seq<string>, caps: seq<Option<string>>, p: nat, cur: Option<Pending>, pend: seq<Pending>)
    requires |caps| == |lines| && p <= |lines|
  {
    var hs := HeadingIndices(caps, p);
    if hs == [] then cur.None? && pend == []
    else
      && cur == Some(Pending(caps[hs[|hs| - 1]].value, lines[hs[|hs| - 1] + 1..p]))
      && |pend| == |hs| - 1
      && forall j :: 0 <= j < |pend| ==> pend[j] == PendingAt(lines, caps, hs[j], SectionEnd(hs, j, p))
  }

  /** One more line read: a heading line adds its index. */
  lemma {:induction false} HeadingIndicesStep(caps: seq<Option<string>>, p: nat, next: nat)
    requires p < |caps| && next == p + 1
    ensures HeadingIndices(caps, next) == HeadingIndices(caps, p) + (if caps[p].Some? then [p] else [])
  {
  }

  lemma {:induction false} SplitInvFirstHeading(lines: seq<string>, caps: seq<Option<string>>, p: nat, next: nat, pend: seq<Pending>)
    requires |caps| == |lines| && p < |lines| && next == p + 1 && caps[p].Some? && SplitInv(lines, caps, p, None, pend)
    ensures SplitInv(lines, caps, next, Some(Pending(caps[p].value, [])), pend)
  {
    HeadingIndicesStep(caps, p, next);
    assert HeadingIndices(caps, next) == [p];
    assert lines[next..next] == [];
  }

  lemma {:induction false} SplitInvNextHeading(lines: seq<string>, caps: seq<Option<string>>, p: nat, next: nat, open: Pending, pend: seq<Pending>)
    requires |caps| == |lines| && p < |lines| && next == p + 1 && caps[p].Some? && SplitInv(lines, caps, p, Some(open), pend)
    ensures SplitInv(lines, caps, next, Some(Pending(caps[p].value, [])), pend + [open])
  {
    var hs := HeadingIndices(caps, p);
    var hs' := HeadingIndices(caps, next);
    HeadingIndicesStep(caps, p, next);
    assert lines[next..next] == [];
    var ps := pend + [open];
    forall j | 0 <= j < |ps| ensures ps[j] == PendingAt(lines, caps, hs'[j], SectionEnd(hs', j, next)) {
      PushAt(lines, caps, p, next, hs, pend, open, j);
    }
  }

  /** After a push, the pending section at `j` is the one the next heading closes. */
  lemma {:induction false} PushAt(lines: seq<string>, caps: seq<Option<string>>, p: nat, next: nat, hs: seq<nat>, pend: seq<Pending>, x: Pending, j: nat)
    requires |caps| == |lines| && p < |lines| && next == p + 1
    requires hs == HeadingIndices(caps, p) && hs + [p] == HeadingIndices(caps, next)
    requires hs != [] && |pend| == |hs| - 1 && j <= |pend|
    requires j < |pend| ==> pend[j] == PendingAt(lines, caps, hs[j], SectionEnd(hs, j, p))
    requires x == Pending(caps[hs[|hs| - 1]].value, lines[hs[|hs| - 1] + 1..p])
    ensures (pend + [x])[j] == PendingAt(lines, caps, (hs + [p])[j], SectionEnd(hs + [p], j, next))
  {
    if j < |pend| {
      assert (hs + [p])[j + 1] == hs[j + 1];
    }
  }

  lemma {:induction false} SplitInvBody(lines: seq<string>, caps: seq<Option<string>>, p: nat, next: nat, cur: Option<Pending>, pend: seq<Pending>)
    requires |caps| == |lines| && p < |lines| && next == p + 1 && caps[p].None? && SplitInv(lines, caps, p, cur, pend)
    ensures cur.None? ==> SplitInv(lines, caps, next, None, pend)
    ensures cur.Some? ==> SplitInv(lines, caps, next, Some(Pending(cur.value.heading, cur.value.bodyLines + [lines[p]])), pend)
  {
    var hs := HeadingIndices(caps, p);
    HeadingIndicesStep(caps, p, next);
    if hs != [] {
      assert lines[hs[|hs| - 1] + 1..next] == lines[hs[|hs| - 1] + 1..p] + [lines[p]];
    }
  }

  lemma {:induction false} SplitInvDone(lines: seq<string>, caps: seq<Option<string>>, cur: Option<Pending>, pend: seq<Pending>)
    requires |caps| == |lines| && SplitInv(lines, caps, |lines|, cur, pend)
    ensures (if cur.Some? then pend + [cur.value] else pend) == PendingsWith(lines, caps)
  {
    var hs := HeadingIndices(caps, |lines|);
    var ps := PendingsWith(lines, caps);
    if hs != [] {
      var r := pend + [cur.value];
      assert |r| == |ps|;
      forall j | 0 <= j < |r| ensures r[j] == ps[j] {
        PendingsWithAt(lines, caps, j);
        if j + 1 == |hs| {
          assert r[j] == PendingAt(lines, caps, hs[j], |lines|);
        }
      }
    }
  }

  /** The loop of parseMarkdownSections over the lines, with `cur` and pushCur. */
  method SplitSections(lines: seq<string>) returns (sections: seq<Section>)
    ensures sections == SplitSpec(lines)
  {
    ghost var caps := Captures(lines);
    ghost var pend: seq<Pending> := [];
    sections := [];
    var cur: Option<Pending> := None;
    var p := 0;
    while p < |lines|
      invariant p <= |lines|
      invariant SplitInv(lines, caps, p, cur, pend)
      invariant sections == CloseAll(pend)
    {
      var m := HeadingCapture(lines[p]);
      assert m == caps[p];
      var next := p + 1;
      if m.Some? {
        if cur.Some? {
          SplitInvNextHeading(lines, caps, p, next, cur.value, pend);
          CloseAllSnoc(pend, cur.value);
          sections := sections + [Close(cur.value)];
          pend := pend + [cur.value];
        } else {
          SplitInvFirstHeading(lines, caps, p, next, pend);
        }
        cur := Some(Pending(m.value, []));
      } else {
        SplitInvBody(lines, caps, p, next, cur, pend);
        if cur.Some? {
          cur := Some(Pending(cur.value.heading, cur.value.bodyLines + [lines[p]]));
        }
      }
      p := next;
    }
    SplitInvDone(lines, caps, cur, pend);
    if cur.Some? {
      CloseAllSnoc(pend, cur.value);
      sections := sections + [Close(cur.value)];
    }
  }

  /** `hs` with every index moved up by `d`. */
  function Shift(hs: seq<nat>, d: nat): (r: seq<nat>)
    ensures |r| == |hs| && forall j :: 0 <= j < |r| ==> r[j] == hs[j] + d
  {
    seq(|hs|, j requires 0 <= j < |hs| => hs[j] + d)
  }

  lemma {:induction false} NoHeadingsBelow(caps: seq<Option<string>>, n: nat)
    requires n <= |caps| && forall i :: 0 <= i < n ==> caps[i].None?
    ensures HeadingIndices(caps, n) == []
  {
    if n > 0 {
      NoHeadingsBelow(caps, n - 1);
    }
  }

  /** Heading indices after `c0`, a run of non-heading lines, are those of `c2` moved up. */
  lemma {:induction false} HeadingIndicesShift(c0: seq<Option<string>>, c2: seq<Option<string>>, n: nat)
    requires n <= |c2| && forall i :: 0 <= i < |c0| ==> c0[i].None?
    ensures HeadingIndices(c0 + c2, |c0| + n) == Shift(HeadingIndices(c2, n), |c0|)
  {
    var c1 := c0 + c2;
    var d := |c0|;
    if n == 0 {
      assert forall i :: 0 <= i < d ==> c1[i].None?;
      NoHeadingsBelow(c1, d);
    } else {
      HeadingIndicesShift(c0, c2, n - 1);
      assert c1[d + n - 1] == c2[n - 1];
      var hs := HeadingIndices(c2, n - 1);
      if c2[n - 1].Some? {
        assert Shift(hs + [n - 1], d) == Shift(hs, d) + [d + n - 1];
      } else {
        assert HeadingIndices(c2, n) == hs;
      }
    }
  }

  /** The captures of two runs of lines, one after the other. */
  lemma {:induction false} CapturesAppend(pre: seq<string>, lines: seq<string>)
    ensures Captures(pre + lines) == Captures(pre) + Captures(lines)
  {
    var all := pre + lines;
    forall i | 0 <= i < |all| ensures Captures(all)[i] == (Captures(pre) + Captures(lines))[i] {
      if i < |pre| {
        assert all[i] == pre[i];
      } else {
        assert all[i] == lines[i - |pre|];
      }
    }
  }

  /** Lines before the first heading belong to no section. */
  lemma {:induction false} PreambleIgnored(pre: seq<string>, lines: seq<string>)
    requires forall i :: 0 <= i < |pre| ==> !IsHeadingLine(pre[i])
    ensures SplitSpec(pre + lines) == SplitSpec(lines)
  {
    CapturesAppend(pre, lines);
    var c0 := Captures(pre);
    assert forall i :: 0 <= i < |c0| ==> c0[i].None?;
    PreambleIgnoredWith(pre, lines, c0, Captures(lines));
  }

  lemma {:induction false} PreambleIgnoredWith(pre: seq<string>, lines: seq<string>, c0: seq<Option<string>>, c2: seq<Option<string>>)
    requires |c0| == |pre| && |c2| == |lines|
    requires forall i :: 0 <= i < |c0| ==> c0[i].None?
    ensures SplitWith(pre + lines, c0 + c2) == SplitWith(lines, c2)
  {
    PendingsAfterPreamble(pre, lines, c0, c2);
  }

  lemma {:induction false} PendingsAfterPreamble(pre: seq<string>, lines: seq<string>, c0: seq<Option<string>>, c2: seq<Option<string>>)
    requires |c0| == |pre| && |c2| == |lines|
    requires forall i :: 0 <= i < |c0| ==> c0[i].None?
    ensures PendingsWith(pre + lines, c0 + c2) == PendingsWith(lines, c2)
  {
    HeadingIndicesShift(c0, c2, |lines|);
    var p1, p2 := PendingsWith(pre + lines, c0 + c2), PendingsWith(lines, c2);
    forall j | 0 <= j < |p2| ensures p1[j] == p2[j] {
      PendingShiftAt(pre, lines, c0, c2, j);
    }
  }

  /** One pending section, read after the preamble or without it. */
  lemma {:induction false} PendingShiftAt(pre: seq<string>, lines: seq<string>, c0: seq<Option<string>>, c2: seq<Option<string>>, j: nat)
    requires |c0| == |pre| && |c2| == |lines|
    requires HeadingIndices(c0 + c2, |pre + lines|) == Shift(HeadingIndices(c2, |lines|), |pre|)
    requires j < |HeadingIndices(c2, |lines|)|
    ensures PendingsWith(pre + lines, c0 + c2)[j] == PendingsWith(lines, c2)[j]
  {
    var all := pre + lines;
    var d := |pre|;
    var hs := HeadingIndices(c2, |lines|);
    var hs1 := HeadingIndices(c0 + c2, |all|);
    var a, b := hs[j], SectionEnd(hs, j, |lines|);
    var a1, b1 := hs1[j], SectionEnd(hs1, j, |all|);
    assert a1 == d + a && b1 == d + b;
    PendingsWithAt(all, c0 + c2, j);
    PendingsWithAt(lines, c2, j);
    PendingAtAfter(pre, lines, c0, c2, a, b, a1, b1);
  }

  lemma {:induction false} PendingAtAfter(pre: seq<string>, lines: seq<string>, c0: seq<Option<string>>, c2: seq<Option<string>>,
                       a: nat, b: nat, a1: nat, b1: nat)
    requires |c0| == |pre| && |c2| == |lines| && a < b <= |lines| && c2[a].Some?
    requires a1 == |pre| + a && b1 == |pre| + b
    ensures PendingAt(pre + lines, c0 + c2, a1, b1) == PendingAt(lines, c2, a, b)
  {
    SliceAfter(pre, lines, a + 1, b, a1 + 1, b1);
    AppendIndex(c0, c2, a1, a);
  }

  lemma {:induction false} AppendIndex<T>(s: seq<T>, t: seq<T>, k: nat, i: nat)
    requires i < |t| && k == |s| + i
    ensures (s + t)[k] == t[i]
  {
  }

  lemma {:induction false} PendingsWithAt(lines: seq<string>, caps: seq<Option<string>>, j: nat)
    requires |caps| == |lines| && j < |HeadingIndices(caps, |lines|)|
    ensures var hs := HeadingIndices(caps, |lines|);
      PendingsWith(lines, caps)[j] == PendingAt(lines, caps, hs[j], SectionEnd(hs, j, |lines|))
  {
  }

  lemma {:induction false} SliceAfter<T>(pre: seq<T>, s: seq<T>, x: nat, y: nat, x': nat, y': nat)
    requires x <= y <= |s| && x' == |pre| + x && y' == |pre| + y
    ensures (pre + s)[x'..y'] == s[x..y]
  {
    var t := pre + s;
    forall i | 0 <= i < y - x ensures t[x'..y'][i] == s[x..y][i] {
      assert t[x' + i] == s[x + i];
    }
  }

  // ---------------------------------------------------------------------------
  // Table of contents, checklist and cap
  // ---------------------------------------------------------------------------

  /** `findIndex` of the first section whose heading contains `key`. */
  function FirstWith(ss: seq<Section>, key: string): (r: Option<nat>)
    ensures r.Some? ==> r.value < |ss| && Contains(ss[r.value].heading, key)
    ensures r.Some? ==> forall j :: 0 <= j < r.value ==> !Contains(ss[j].heading, key)
    ensures r.None? ==> forall j :: 0 <= j < |ss| ==> !Contains(ss[j].heading, key)
  {
    if ss == [] then None
    else if Contains(ss[0].heading, key) then Some(0)
    else match FirstWith(ss[1..], key)
      case None => None
      case Some(i) => Some(i + 1)
  }

  /** `splice(i, 1)`: the sequence without its element at `i`. */
  function RemoveAt<T>(s: seq<T>, i: nat): (r: seq<T>)
    requires i < |s|
    ensures |r| == |s| - 1
    ensures forall j :: 0 <= j < i ==> r[j] == s[j]
    ensures forall j :: i <= j < |r| ==> r[j] == s[j + 1]
  {
    s[..i] + s[i + 1..]
  }

  /** The number of sections whose heading contains `key`. */
  function CountWith(ss: seq<Section>, key: string): nat {
    if ss == [] then 0 else (if Contains(ss[0].heading, key) then 1 else 0) + CountWith(ss[1..], key)
  }

  /** The sections left once the first table of contents is dropped. */
  function WithoutToc(ss: seq<Section>): seq<Section> {
    match FirstWith(ss, TocKey)
    case Some(t) => RemoveAt(ss, t)
    case None => ss
  }

  /** `/^\s*投稿日[:：]/` on a line. */
  predicate IsDateLine(line: string) {
    var k := LeadingSpaces(line);
    k + 4 <= |line| && line[k..k + 3] == "投稿日" && (line[k + 3] == ':' || line[k + 3] == '：')
  }

  /** `lines.find(...)`: the index of the first date line. */
  function FirstDateLine(lines: seq<string>): (r: Option<nat>)
    ensures r.Some? ==> r.value < |lines| && IsDateLine(lines[r.value])
    ensures r.Some? ==> forall j :: 0 <= j < r.value ==> !IsDateLine(lines[j])
    ensures r.None? ==> forall j :: 0 <= j < |lines| ==> !IsDateLine(lines[j])
  {
    if lines == [] then None
    else if IsDateLine(lines[0]) then Some(0)
    else match FirstDateLine(lines[1..])
      case None => None
      case Some(i) => Some(i + 1)
  }

  /** The first date line, trimmed, or "" when there is none. */
  function DateLine(lines: seq<string>): string {
    match FirstDateLine(lines)
    case Some(i) => Trim(lines[i])
    case None => ""
  }

  /** parseMarkdownSections. `mdTitle` is extractMarkdownTitle of the draft (a multi-line
      pattern, not part of this model); `maxSections` is MAX_SECTIONS. */
  function Parse(md: string, mdTitle: string, maxSections: nat): (p: ParsedDraft)
    ensures |p.mainSections| <= maxSections
    ensures p.checklist.Some? ==> Contains(p.checklist.value.heading, ChecklistKey)
  {
    var lines := Lines(md);
    var rest := WithoutToc(SplitSpec(lines));
    var title := Fragments.RemoveMemoPrefix(mdTitle);
    match FirstWith(rest, ChecklistKey)
    case Some(c) => ParsedDraft(title, DateLine(lines), Take(RemoveAt(rest, c), maxSections), Some(rest[c]))
    case None => ParsedDraft(title, DateLine(lines), Take(rest, maxSections), None)
  }

  method ParseMarkdownSections(md: string, mdTitle: string, maxSections: nat) returns (p: ParsedDraft)
    ensures p == Parse(md, mdTitle, maxSections)
  {
    var lines := Lines(md);
    var sections := SplitSections(lines);
    var tocIdx := FirstWith(sections, TocKey);
    if tocIdx.Some? {
      sections := RemoveAt(sections, tocIdx.value);
    }
    var checklist: Option<Section> := None;
    var clIdx := FirstWith(sections, ChecklistKey);
    if clIdx.Some? {
      checklist := Some(sections[clIdx.value]);
      sections := RemoveAt(sections, clIdx.value);
    }
    p := ParsedDraft(Fragments.RemoveMemoPrefix(mdTitle), DateLine(lines), Take(sections, maxSections), checklist);
  }

  /** `sub` is `s` at the increasing indices `idx`. */
  ghost predicate SubseqAt<T>(sub: seq<T>, s: seq<T>, idx: seq<nat>) {
    && |idx| == |sub|
    && (forall j :: 0 <= j < |idx| ==> idx[j] < |s| && sub[j] == s[idx[j]])
    && (forall j, k :: 0 <= j < k < |idx| ==> idx[j] < idx[k])
  }

  lemma {:induction false} RemoveAtSubseq<T>(s: seq<T>, i: nat) returns (idx: seq<nat>)
    requires i < |s|
    ensures SubseqAt(RemoveAt(s, i), s, idx)
  {
    idx := seq(|s| - 1, j requires 0 <= j < |s| - 1 => if j < i then j else j + 1);
  }

  lemma {:induction false} TakeSubseq<T>(s: seq<T>, n: nat) returns (idx: seq<nat>)
    ensures SubseqAt(Take(s, n), s, idx)
  {
    idx := seq(|Take(s, n)|, j requires 0 <= j < |Take(s, n)| => j);
  }

  lemma {:induction false} SubseqTrans<T>(a: seq<T>, b: seq<T>, c: seq<T>, ab: seq<nat>, bc: seq<nat>) returns (ac: seq<nat>)
    requires SubseqAt(a, b, ab) && SubseqAt(b, c, bc)
    ensures SubseqAt(a, c, ac)
  {
    ac := seq(|ab|, j requires 0 <= j < |ab| => bc[ab[j]]);
  }

  /** The sections left after the table of contents is dropped keep their order. */
  lemma {:induction false} WithoutTocSubseq(ss: seq<Section>) returns (idx: seq<nat>)
    ensures SubseqAt(WithoutToc(ss), ss, idx)
  {
    match FirstWith(ss, TocKey)
    case Some(t) =>
      idx := RemoveAtSubseq(ss, t);
    case None =>
      idx := TakeSubseq(ss, |ss|);
  }

  /** The main sections are sections of the draft, in document order. */
  lemma {:induction false} MainSectionsInOrder(md: string, mdTitle: string, maxSections: nat) returns (idx: seq<nat>)
    ensures SubseqAt(Parse(md, mdTitle, maxSections).mainSections, SplitSpec(Lines(md)), idx)
  {
    var all := SplitSpec(Lines(md));
    var rest := WithoutToc(all);
    var i1 := WithoutTocSubseq(all);
    match FirstWith(rest, ChecklistKey)
    case Some(c) =>
      var i2 := RemoveAtSubseq(rest, c);
      var i3 := TakeSubseq(RemoveAt(rest, c), maxSections);
      var i23 := SubseqTrans(Take(RemoveAt(rest, c), maxSections), RemoveAt(rest, c), rest, i3, i2);
      idx := SubseqTrans(Take(RemoveAt(rest, c), maxSections), rest, all, i23, i1);
    case None =>
      var i3 := TakeSubseq(rest, maxSections);
      idx := SubseqTrans(Take(rest, maxSections), rest, all, i3, i1);
  }

  /** Removing the first section whose heading contains `key` leaves every later one. */
  lemma {:induction false} RemoveFirstCount(ss: seq<Section>, key: string)
    requires FirstWith(ss, key).Some?
    ensures CountWith(RemoveAt(ss, FirstWith(ss, key).value), key) == CountWith(ss, key) - 1
  {
    var i := FirstWith(ss, key).value;
    var r := RemoveAt(ss, i);
    if i == 0 {
      assert r == ss[1..];
    } else {
      assert FirstWith(ss[1..], key) == Some(i - 1);
      RemoveFirstCount(ss[1..], key);
      assert r[0] == ss[0] && r[1..] == RemoveAt(ss[1..], i - 1);
    }
  }

  /** Only the first table of contents is dropped: every later one stays. */
  lemma {:induction false} OnlyFirstTocDropped(ss: seq<Section>)
    ensures CountWith(ss, TocKey) > 0 ==> CountWith(WithoutToc(ss), TocKey) == CountWith(ss, TocKey) - 1
    ensures CountWith(ss, TocKey) == 0 ==> WithoutToc(ss) == ss
  {
    if FirstWith(ss, TocKey).Some? {
      RemoveFirstCount(ss, TocKey);
    } else {
      NoneCountsZero(ss, TocKey);
    }
  }

  lemma {:induction false} NoneCountsZero(ss: seq<Section>, key: string)
    requires FirstWith(ss, key).None?
    ensures CountWith(ss, key) == 0
  {
    if ss != [] {
      assert FirstWith(ss[1..], key).None?;
      NoneCountsZero(ss[1..], key);
    }
  }

  /** Only the first checklist is set aside: the others stay among the main sections
      before the cap. */
  lemma {:induction false} OnlyFirstChecklistSetAside(rest: seq<Section>)
    requires FirstWith(rest, ChecklistKey).Some?
    ensures var c := FirstWith(rest, ChecklistKey).value;
      CountWith(RemoveAt(rest, c), ChecklistKey) == CountWith(rest, ChecklistKey) - 1
  {
    RemoveFirstCount(rest, ChecklistKey);
  }
}
