/**
 * The regular expressions that pull labelled fields out of the WiFi command output all have
 * the shape
 *     <label>\s+:\s+<capture>        or        <label>\s+\d+\s+:\s+<capture>
 * with <capture> one of `(.+)`, `(\d+)` or `(\d+)%`. String.prototype.match without the `g`
 * flag returns the first match: the leftmost start position and, at that position, the choice
 * JavaScript's backtracking tries first. Before the colon only one split of the text is possible;
 * after it, the greedy `\s+` prefers the latest capture start and the greedy capture the longest
 * capture. IsMatch states what a match is, IsFirstMatch which one `match` returns, and Find
 * computes it.
 */
module LabelPattern {
  import opened Wrappers
  import opened Text

  /** What follows the colon: `(.+)`, `(\d+)` or `(\d+)%`. */
  datatype CaptureKind = Line | Digits | DigitsPercent

  /** A pattern `label\s+:\s+capture`; when `numbered`, `label\s+\d+\s+:\s+capture`. */
  datatype Pattern = Pattern(key: string, numbered: bool, capture: CaptureKind)

  function CaptureClass(k: CaptureKind): CharClass {
    if k == Line then Dot else Digit
  }

  /** One match: it starts at `start`, its colon is at `colon`, group 1 is s[capStart..capEnd]. */
  datatype Span = Span(start: nat, colon: nat, capStart: nat, capEnd: nat)

  predicate LabelAt(s: string, i: nat, key: string) {
    i + |key| <= |s| && s[i..i + |key|] == key
  }

  /** s[lo..hi] matches `\s+`, or `\s+\d+\s+` when numbered. */
  ghost predicate GapMatches(s: string, lo: nat, hi: nat, numbered: bool)
    requires lo <= hi <= |s|
  {
    if numbered then
      exists m: nat, n: nat :: lo < m < n < hi && AllIn(s, lo, m, Space) && AllIn(s, m, n, Digit) && AllIn(s, n, hi, Space)
    else
      lo < hi && AllIn(s, lo, hi, Space)
  }

  /** After the colon at c: `\s+` is s[c+1..cs] and the capture is s[cs..ce]. */
  ghost predicate TailMatches(s: string, kind: CaptureKind, c: nat, cs: nat, ce: nat) {
    c + 1 < cs < ce <= |s| &&
    AllIn(s, c + 1, cs, Space) &&
    AllIn(s, cs, ce, CaptureClass(kind)) &&
    (kind == DigitsPercent ==> ce < |s| && s[ce] == '%')
  }

  /** m is a way for pattern p to match s. */
  ghost predicate IsMatch(s: string, p: Pattern, m: Span) {
    LabelAt(s, m.start, p.key) &&
    m.start + |p.key| <= m.colon < |s| &&
    GapMatches(s, m.start + |p.key|, m.colon, p.numbered) &&
    s[m.colon] == ':' &&
    TailMatches(s, p.capture, m.colon, m.capStart, m.capEnd)
  }

  /** Among the matches at m.start, m is the one backtracking reaches first. */
  ghost predicate IsGreedy(s: string, p: Pattern, m: Span) {
    IsMatch(s, p, m) &&
    forall m' :: IsMatch(s, p, m') && m'.start == m.start ==>
      m'.capStart < m.capStart || (m'.capStart == m.capStart && m'.capEnd <= m.capEnd)
  }

  /** m is the match `String.prototype.match` returns. */
  ghost predicate IsFirstMatch(s: string, p: Pattern, m: Span) {
    IsGreedy(s, p, m) &&
    forall m' :: IsMatch(s, p, m') ==> m.start <= m'.start
  }

  /** Where the colon must be if a match starts with a label ending at a. */
  function GapEnd(s: string, a: nat, numbered: bool): (r: Option<nat>)
    requires a <= |s|
    ensures r.Some? ==> a < r.value <= |s| && GapMatches(s, a, r.value, numbered)
  {
    var b := RunEnd(s, a, Space);
    if b == a then None
    else if !numbered then Some(b)
    else
      var d := RunEnd(s, b, Digit);
      if d == b then None
      else
        var e := RunEnd(s, d, Space);
        if e == d then None
        else
          assert AllIn(s, a, b, Space) && AllIn(s, b, d, Digit) && AllIn(s, d, e, Space);
          Some(e)
  }

  /** The text before the colon splits in one way only, so the colon is where GapEnd says. */
  lemma GapForced(s: string, a: nat, c: nat, numbered: bool)
    requires a <= c < |s| && s[c] == ':' && GapMatches(s, a, c, numbered)
    ensures GapEnd(s, a, numbered) == Some(c)
  {
    assert !IsSpace(':') && !IsDigit(':');
    var b := RunEnd(s, a, Space);
    if numbered {
      var m: nat, n: nat :| a < m < n < c && AllIn(s, a, m, Space) && AllIn(s, m, n, Digit) && AllIn(s, n, c, Space);
      assert !IsSpace(s[m]);
      RunEndMaximal(s, a, m, Space);
      var d := RunEnd(s, b, Digit);
      assert !IsDigit(s[n]);
      RunEndMaximal(s, b, n, Digit);
      RunEndMaximal(s, d, c, Space);
    } else {
      RunEndMaximal(s, a, c, Space);
    }
  }

  /** The last position in [lo, hi] holding a character `.` matches. */
  function LastDotStart(s: string, lo: nat, hi: nat): (r: Option<nat>)
    ensures r.Some? ==> lo <= r.value <= hi && r.value < |s| && !IsLineTerminator(s[r.value])
    ensures forall x :: lo <= x <= hi && x < |s| && !IsLineTerminator(s[x]) ==> r.Some? && x <= r.value
    decreases hi
  {
    if hi < lo then None
    else if hi < |s| && !IsLineTerminator(s[hi]) then Some(hi)
    else if hi == 0 then None
    else LastDotStart(s, lo, hi - 1)
  }

  /** The capture after a colon at c whose following white space runs to k. */
  function CaptureAfter(s: string, kind: CaptureKind, c: nat, k: nat): (r: Option<(nat, nat)>)
    requires c + 1 < k <= |s|
  {
    match kind
    case Line =>
      (match LastDotStart(s, c + 2, k)
       case None => None
       case Some(cs) => Some((cs, RunEnd(s, cs, Dot))))
    case Digits =>
      var d := RunEnd(s, k, Digit);
      if d == k then None else Some((k, d))
    case DigitsPercent =>
      var d := RunEnd(s, k, Digit);
      if d == k || d == |s| || s[d] != '%' then None else Some((k, d))
  }

  /** The colon of a match of p at i, once the label, the gap, the colon and the white space
      after it are in place. */
  function ColonAt(s: string, p: Pattern, i: nat): (r: Option<nat>)
    ensures r.Some? ==> LabelAt(s, i, p.key) && GapEnd(s, i + |p.key|, p.numbered) == Some(r.value)
    ensures r.Some? ==> r.value < |s| && s[r.value] == ':' && r.value + 1 < RunEnd(s, r.value + 1, Space)
  {
    if !LabelAt(s, i, p.key) then None
    else
      match GapEnd(s, i + |p.key|, p.numbered)
      case None => None
      case Some(c) =>
        if c == |s| || s[c] != ':' || RunEnd(s, c + 1, Space) == c + 1 then None
        else Some(c)
  }

  /** The match of p that starts at i, if there is one. */
  function MatchAt(s: string, p: Pattern, i: nat): (r: Option<Span>)
  {
    match ColonAt(s, p, i)
    case None => None
    case Some(c) => SpanAfterColon(s, p, i, c)
  }

  /** The match that starts at i and has its colon at c, as far as the capture allows one. */
  function SpanAfterColon(s: string, p: Pattern, i: nat, c: nat): (r: Option<Span>)
    requires c < |s| && c + 1 < RunEnd(s, c + 1, Space)
  {
    match CaptureAfter(s, p.capture, c, RunEnd(s, c + 1, Space))
    case None => None
    case Some(cap) => Some(Span(i, c, cap.0, cap.1))
  }

  /** What CaptureAfter returns is a way to end the match. */
  lemma CaptureAfterSound(s: string, kind: CaptureKind, c: nat)
    requires c < |s| && c + 1 < RunEnd(s, c + 1, Space)
    ensures var k := RunEnd(s, c + 1, Space);
            CaptureAfter(s, kind, c, k).Some? ==>
              TailMatches(s, kind, c, CaptureAfter(s, kind, c, k).value.0, CaptureAfter(s, kind, c, k).value.1)
  {
    var k := RunEnd(s, c + 1, Space);
    var r := CaptureAfter(s, kind, c, k);
    if r.Some? {
      var (cs, ce) := r.value;
      assert cs <= k;
      assert AllIn(s, c + 1, cs, Space);
    }
  }

  /** Every way to end the match after the colon at c is one CaptureAfter finds or one that
      backtracking tries later: an earlier capture start, or the same start and a shorter capture. */
  lemma CaptureAfterGreedy(s: string, kind: CaptureKind, c: nat, cs: nat, ce: nat)
    requires TailMatches(s, kind, c, cs, ce)
    ensures c + 1 < RunEnd(s, c + 1, Space)
    ensures var r := CaptureAfter(s, kind, c, RunEnd(s, c + 1, Space));
            r.Some? && (cs < r.value.0 || (cs == r.value.0 && ce <= r.value.1))
  {
    var k := RunEnd(s, c + 1, Space);
    RunEndMaximal(s, c + 1, cs, Space);
    match kind
    case Line =>
      assert !IsLineTerminator(s[cs]);
      var cs' := LastDotStart(s, c + 2, k).value;
      if cs == cs' {
        RunEndMaximal(s, cs, ce, Dot);
      }
    case Digits =>
      assert !IsSpace(s[cs]);
      RunEndMaximal(s, k, ce, Digit);
    case DigitsPercent =>
      assert !IsSpace(s[cs]);
      assert !IsDigit('%');
      RunEndMaximal(s, k, ce, Digit);
  }

  /** What MatchAt returns is a match at i. */
  lemma MatchAtSound(s: string, p: Pattern, i: nat)
    requires MatchAt(s, p, i).Some?
    ensures MatchAt(s, p, i).value.start == i && IsMatch(s, p, MatchAt(s, p, i).value)
  {
    var c := ColonAt(s, p, i).value;
    MatchAtOfColon(s, p, i, c);
    var m := MatchAt(s, p, i).value;
    assert m.start == i && m.colon == c && TailMatches(s, p.capture, c, m.capStart, m.capEnd) by {
      SpanAfterColonSound(s, p, i, c);
    }
    assert GapMatches(s, i + |p.key|, c, p.numbered);
  }

  /** The span built after the colon at c starts at i, keeps c, and ends the match properly. */
  lemma SpanAfterColonSound(s: string, p: Pattern, i: nat, c: nat)
    requires c < |s| && c + 1 < RunEnd(s, c + 1, Space) && SpanAfterColon(s, p, i, c).Some?
    ensures var m := SpanAfterColon(s, p, i, c).value;
            m.start == i && m.colon == c && TailMatches(s, p.capture, c, m.capStart, m.capEnd)
  {
    CaptureAfterSound(s, p.capture, c);
  }

  /** Every match at m.start is found by MatchAt or comes after its result in backtracking order. */
  lemma MatchAtDominates(s: string, p: Pattern, m: Span)
    requires IsMatch(s, p, m)
    ensures var r := MatchAt(s, p, m.start);
            r.Some? && (m.capStart < r.value.capStart || (m.capStart == r.value.capStart && m.capEnd <= r.value.capEnd))
  {
    var c := m.colon;
    assert ColonAt(s, p, m.start) == Some(c) by {
      ColonOfMatch(s, p, m);
    }
    assert TailMatches(s, p.capture, c, m.capStart, m.capEnd);
    SpanAfterColonDominates(s, p, m.start, c, m.capStart, m.capEnd);
    MatchAtOfColon(s, p, m.start, c);
  }

  /** The same, once the colon is fixed: the span built after it dominates every tail there. */
  lemma SpanAfterColonDominates(s: string, p: Pattern, i: nat, c: nat, cs: nat, ce: nat)
    requires TailMatches(s, p.capture, c, cs, ce)
    ensures c < |s| && c + 1 < RunEnd(s, c + 1, Space)
    ensures var r := SpanAfterColon(s, p, i, c);
            r.Some? && (cs < r.value.capStart || (cs == r.value.capStart && ce <= r.value.capEnd))
  {
    CaptureAfterGreedy(s, p.capture, c, cs, ce);
  }

  /** Once the colon is known, MatchAt is what CaptureAfter makes of the rest. */
  lemma MatchAtOfColon(s: string, p: Pattern, i: nat, c: nat)
    requires ColonAt(s, p, i) == Some(c)
    ensures MatchAt(s, p, i) == SpanAfterColon(s, p, i, c)
  {
  }

  /** Every match at m.start puts its colon where ColonAt does. */
  lemma ColonOfMatch(s: string, p: Pattern, m: Span)
    requires IsMatch(s, p, m)
    ensures ColonAt(s, p, m.start) == Some(m.colon)
  {
    ColonOfParts(s, p, m.start, m.colon, m.capStart);
  }

  /** The part of a match up to the white space after the colon already fixes ColonAt. */
  lemma ColonOfParts(s: string, p: Pattern, i: nat, c: nat, cs: nat)
    requires LabelAt(s, i, p.key) && i + |p.key| <= c < |s| && s[c] == ':'
    requires GapMatches(s, i + |p.key|, c, p.numbered)
    requires c + 1 < cs <= |s| && AllIn(s, c + 1, cs, Space)
    ensures ColonAt(s, p, i) == Some(c)
  {
    assert GapEnd(s, i + |p.key|, p.numbered) == Some(c) by {
      GapForced(s, i + |p.key|, c, p.numbered);
    }
    assert c + 1 < RunEnd(s, c + 1, Space) by {
      RunEndMaximal(s, c + 1, cs, Space);
    }
    ColonAtIntro(s, p, i, c);
  }

  lemma ColonAtIntro(s: string, p: Pattern, i: nat, c: nat)
    requires LabelAt(s, i, p.key) && GapEnd(s, i + |p.key|, p.numbered) == Some(c)
    requires c < |s| && s[c] == ':' && c + 1 < RunEnd(s, c + 1, Space)
    ensures ColonAt(s, p, i) == Some(c)
  {
  }

  /** MatchAt finds a match at i exactly when there is one, and the one backtracking prefers. */
  lemma MatchAtCorrect(s: string, p: Pattern, i: nat)
    ensures MatchAt(s, p, i).Some? ==> MatchAt(s, p, i).value.start == i && IsGreedy(s, p, MatchAt(s, p, i).value)
    ensures MatchAt(s, p, i).None? ==> forall m: Span :: m.start == i ==> !IsMatch(s, p, m)
  {
    forall m: Span | m.start == i && IsMatch(s, p, m)
      ensures MatchAt(s, p, i).Some?
      ensures m.capStart < MatchAt(s, p, i).value.capStart ||
              (m.capStart == MatchAt(s, p, i).value.capStart && m.capEnd <= MatchAt(s, p, i).value.capEnd)
    {
      MatchAtDominates(s, p, m);
    }
    if MatchAt(s, p, i).Some? {
      MatchAtSound(s, p, i);
    }
  }

  /** The first match of p at or after position i. */
  function FindFrom(s: string, p: Pattern, i: nat): (r: Option<Span>)
    ensures r.Some? ==> i <= r.value.start && IsGreedy(s, p, r.value)
    ensures r.Some? ==> forall m :: IsMatch(s, p, m) && i <= m.start ==> r.value.start <= m.start
    ensures r.None? ==> forall m :: IsMatch(s, p, m) ==> m.start < i
    decreases |s| + 1 - i
  {
    if i > |s| then None
    else
      MatchAtCorrect(s, p, i);
      match MatchAt(s, p, i)
      case Some(m) => Some(m)
      case None => FindFrom(s, p, i + 1)
  }

  /** `s.match(p)`: the match JavaScript returns, or None when p matches nowhere in s. */
  function Find(s: string, p: Pattern): (r: Option<Span>)
    ensures r.Some? ==> IsFirstMatch(s, p, r.value)
    ensures r.None? <==> forall m :: !IsMatch(s, p, m)
  {
    FindFrom(s, p, 0)
  }

  /** `s.match(p)?.[1]`: group 1 of the first match. */
  function Capture(s: string, p: Pattern): (r: Option<string>)
    ensures r.None? <==> forall m :: !IsMatch(s, p, m)
    ensures r.Some? ==> exists m :: IsFirstMatch(s, p, m) && r.value == s[m.capStart..m.capEnd]
    ensures r.Some? ==> |r.value| > 0
    ensures r.Some? && p.capture == Line ==> forall j :: 0 <= j < |r.value| ==> !IsLineTerminator(r.value[j])
    ensures r.Some? && p.capture != Line ==> AllDigits(r.value)
  {
    match Find(s, p)
    case None => None
    case Some(m) =>
      CapturedText(s, p, m);
      Some(s[m.capStart..m.capEnd])
  }

  /** Group 1 of a match is non-empty and made of characters of its class. */
  lemma CapturedText(s: string, p: Pattern, m: Span)
    requires IsMatch(s, p, m)
    ensures |s[m.capStart..m.capEnd]| > 0
    ensures p.capture == Line ==> forall j :: 0 <= j < m.capEnd - m.capStart ==> !IsLineTerminator(s[m.capStart..m.capEnd][j])
    ensures p.capture != Line ==> AllDigits(s[m.capStart..m.capEnd])
  {
    var t := s[m.capStart..m.capEnd];
    assert AllIn(s, m.capStart, m.capEnd, CaptureClass(p.capture));
    forall j | 0 <= j < |t| ensures InClass(t[j], CaptureClass(p.capture)) {
      assert t[j] == s[m.capStart + j];
    }
  }

  /** A match at the start of s whose capture begins with a non-space character and cannot be
      extended is the one `match` returns. */
  lemma FindAtStart(s: string, p: Pattern, m: Span)
    requires IsMatch(s, p, m) && m.start == 0
    requires !IsSpace(s[m.capStart])
    requires m.capEnd == |s| || !InClass(s[m.capEnd], CaptureClass(p.capture))
    ensures Find(s, p) == Some(m)
  {
    assert MatchAt(s, p, 0).Some? && m.capStart <= MatchAt(s, p, 0).value.capStart by {
      MatchAtDominates(s, p, m);
    }
    var r := MatchAt(s, p, 0).value;
    assert r.start == 0 && IsMatch(s, p, r) by {
      MatchAtSound(s, p, 0);
    }
    assert r.colon == m.colon by {
      ColonOfMatch(s, p, m);
      ColonOfMatch(s, p, r);
    }
    assert r.capStart == m.capStart by {
      assert AllIn(s, r.colon + 1, r.capStart, Space);
    }
    assert r.capEnd == m.capEnd by {
      MatchAtDominates(s, p, m);
      assert AllIn(s, r.capStart, r.capEnd, CaptureClass(p.capture));
    }
    assert FindFrom(s, p, 0) == MatchAt(s, p, 0);
  }
}
