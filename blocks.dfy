/**
 * `text.split(/\r?\n\r?\n/)`: cutting the network listing into blocks at blank lines. The
 * separator is searched for from left to right; each match ends one block and the next one
 * starts right after it; whatever is left after the last match is the last block.
 */
module Blocks {
  import opened Wrappers

  /** The four strings `\r?\n\r?\n` matches. */
  predicate IsSeparator(t: string) {
    t == "\n\n" || t == "\r\n\n" || t == "\n\r\n" || t == "\r\n\r\n"
  }

  /** Length of a `\r?\n` match at q. */
  function NewlineAt(s: string, q: nat): (r: Option<nat>)
    ensures r.Some? ==> q + r.value <= |s|
  {
    if q < |s| && s[q] == '\n' then Some(1)
    else if q + 1 < |s| && s[q] == '\r' && s[q + 1] == '\n' then Some(2)
    else None
  }

  /** Length of a `\r?\n\r?\n` match at q. */
  function SepAt(s: string, q: nat): (r: Option<nat>)
    ensures r.Some? ==> q + r.value <= |s|
  {
    match NewlineAt(s, q)
    case None => None
    case Some(n1) =>
      match NewlineAt(s, q + n1)
      case None => None
      case Some(n2) => Some(n1 + n2)
  }

  /** What SepAt finds is a separator. */
  lemma SepAtSound(s: string, q: nat)
    requires SepAt(s, q).Some?
    ensures IsSeparator(s[q..q + SepAt(s, q).value])
  {
    var n1 := NewlineAt(s, q).value;
    var n2 := NewlineAt(s, q + n1).value;
    assert s[q..q + n1 + n2] == s[q..q + n1] + s[q + n1..q + n1 + n2];
    assert s[q..q + n1] == "\n" || s[q..q + n1] == "\r\n";
    assert s[q + n1..q + n1 + n2] == "\n" || s[q + n1..q + n1 + n2] == "\r\n";
  }

  /** A separator written at q in s is found there, and with its own length. */
  lemma SepAtComplete(s: string, q: nat, t: string)
    requires IsSeparator(t) && q + |t| <= |s| && s[q..q + |t|] == t
    ensures SepAt(s, q) == Some(|t|)
  {
    assert forall j :: 0 <= j < |t| ==> s[q + j] == t[j];
  }

  /** The leftmost separator match in t: its position and its length. */
  function FirstSep(t: string): (r: Option<(nat, nat)>)
    ensures r.Some? ==> 0 < r.value.1 && r.value.0 + r.value.1 <= |t|
  {
    FirstSepFrom(t, 0)
  }

  function FirstSepFrom(t: string, q: nat): (r: Option<(nat, nat)>)
    requires q <= |t|
    ensures r.Some? ==> q <= r.value.0 && 0 < r.value.1 && r.value.0 + r.value.1 <= |t|
    decreases |t| - q
  {
    if q == |t| then None
    else
      match SepAt(t, q)
      case Some(n) =>
        assert NewlineAt(t, q).Some?;
        Some((q, n))
      case None => FirstSepFrom(t, q + 1)
  }

  /** What FirstSepFrom returns is a separator match. */
  lemma {:induction false} FirstSepFromFound(t: string, q: nat)
    requires q <= |t|
    ensures FirstSepFrom(t, q).Some? ==> SepAt(t, FirstSepFrom(t, q).value.0) == Some(FirstSepFrom(t, q).value.1)
    decreases |t| - q
  {
    if q < |t| && SepAt(t, q).None? {
      FirstSepFromFound(t, q + 1);
    }
  }

  /** `t.split(/\r?\n\r?\n/)`: the block up to the first separator, then the split of what follows it. */
  function Split(t: string): (blocks: seq<string>)
    ensures |blocks| >= 1
    decreases |t|
  {
    if FirstSep(t).None? then [t]
    else
      var (q, n) := FirstSep(t).value;
      [t[..q]] + Split(t[q + n..])
  }

  /** The separators Split cuts at, in order. */
  ghost function Separators(t: string): seq<string>
    decreases |t|
  {
    if FirstSep(t).None? then []
    else
      var (q, n) := FirstSep(t).value;
      [t[q..q + n]] + Separators(t[q + n..])
  }

  /** blocks[0] + seps[0] + blocks[1] + ... + blocks[|blocks| - 1]. */
  function Interleave(blocks: seq<string>, seps: seq<string>): string
    requires |blocks| == |seps| + 1
  {
    if seps == [] then blocks[0] else blocks[0] + seps[0] + Interleave(blocks[1..], seps[1..])
  }

  lemma InterleaveCons(b: string, sep: string, blocks: seq<string>, seps: seq<string>)
    requires |blocks| == |seps| + 1
    ensures Interleave([b] + blocks, [sep] + seps) == b + sep + Interleave(blocks, seps)
  {
    assert ([b] + blocks)[1..] == blocks;
    assert ([sep] + seps)[1..] == seps;
  }

  /** One block more than separators. */
  lemma {:induction false} SplitCount(t: string)
    ensures |Split(t)| == |Separators(t)| + 1
    decreases |t|
  {
    if FirstSep(t).Some? {
      var (q, n) := FirstSep(t).value;
      SplitCut(t, q, n);
      SplitCount(t[q + n..]);
    }
  }

  lemma {:induction false} SplitRoundTrip(t: string)
    ensures |Split(t)| == |Separators(t)| + 1
    ensures Interleave(Split(t), Separators(t)) == t
    decreases |t|
  {
    SplitCount(t);
    if FirstSep(t).Some? {
      var (q, n) := FirstSep(t).value;
      var rest := t[q + n..];
      var blocks, seps := Split(rest), Separators(rest);
      SplitCount(rest);
      assert Split(t) == [t[..q]] + blocks && Separators(t) == [t[q..q + n]] + seps by {
        SplitCut(t, q, n);
      }
      assert Interleave(blocks, seps) == rest by { SplitRoundTrip(rest); }
      assert Interleave([t[..q]] + blocks, [t[q..q + n]] + seps) == t[..q] + t[q..q + n] + rest by {
        InterleaveCons(t[..q], t[q..q + n], blocks, seps);
      }
      CutTwice(t, q, q + n);
    }
  }

  /** One step of Split and Separators at the first separator. */
  lemma SplitCut(t: string, q: nat, n: nat)
    requires FirstSep(t) == Some((q, n))
    ensures Split(t) == [t[..q]] + Split(t[q + n..])
    ensures Separators(t) == [t[q..q + n]] + Separators(t[q + n..])
  {
    SplitStep(t, q, n);
    SeparatorsStep(t, q, n);
  }

  lemma SplitStep(t: string, q: nat, n: nat)
    requires FirstSep(t) == Some((q, n))
    ensures Split(t) == [t[..q]] + Split(t[q + n..])
  {
  }

  lemma SeparatorsStep(t: string, q: nat, n: nat)
    requires FirstSep(t) == Some((q, n))
    ensures Separators(t) == [t[q..q + n]] + Separators(t[q + n..])
  {
  }

  lemma CutTwice(t: string, i: nat, j: nat)
    requires i <= j <= |t|
    ensures t == t[..i] + t[i..j] + t[j..]
  {
  }

  /** Splitting loses nothing and keeps the block count: the blocks joined again by their
      separators give back the text, there is one block more than separators, and every
      separator is a blank line. */
  lemma SplitLosesNothing(t: string)
    ensures |Split(t)| == |Separators(t)| + 1
    ensures forall j :: 0 <= j < |Separators(t)| ==> IsSeparator(Separators(t)[j])
    ensures Interleave(Split(t), Separators(t)) == t
  {
    SeparatorsAreSeparators(t);
    SplitRoundTrip(t);
  }

  lemma {:induction false} SeparatorsAreSeparators(t: string)
    ensures forall j :: 0 <= j < |Separators(t)| ==> IsSeparator(Separators(t)[j])
    decreases |t|
  {
    match FirstSep(t)
    case None =>
    case Some((q, n)) =>
      var rest := t[q + n..];
      FirstSepFromFound(t, 0);
      SepAtSound(t, q);
      SeparatorsAreSeparators(rest);
      var seps := Separators(t);
      assert seps == [t[q..q + n]] + Separators(rest) by { SplitCut(t, q, n); }
      forall j | 0 <= j < |seps| ensures IsSeparator(seps[j]) {
        if j > 0 {
          assert seps[j] == Separators(rest)[j - 1];
        }
      }
  }

  /** No separator match starts in t[q..e]. */
  ghost predicate NoSepIn(t: string, q: nat, e: nat) {
    forall k :: q <= k < e ==> SepAt(t, k).None?
  }

  /** FirstSepFrom finds the leftmost match: none starts between q and what it returns. */
  lemma {:induction false} FirstSepFromLeftmost(t: string, q: nat)
    requires q <= |t|
    ensures FirstSepFrom(t, q).Some? ==> NoSepIn(t, q, FirstSepFrom(t, q).value.0)
    ensures FirstSepFrom(t, q).None? ==> NoSepIn(t, q, |t|)
    decreases |t| - q
  {
    if q < |t| && SepAt(t, q).None? {
      FirstSepFromLeftmost(t, q + 1);
    }
  }

  /** A block never contains a blank line. */
  ghost predicate NoBlankLine(block: string) {
    NoSepIn(block, 0, |block|)
  }

  /** A separator inside t[..e] would be a separator in t. */
  lemma NoBlankLineInPrefix(t: string, e: nat)
    requires e <= |t| && NoSepIn(t, 0, e)
    ensures NoBlankLine(t[..e])
  {
    var b := t[..e];
    forall k | 0 <= k < |b| ensures SepAt(b, k).None? {
      if SepAt(b, k).Some? {
        var n := SepAt(b, k).value;
        SepAtSound(b, k);
        assert b[k..k + n] == t[k..k + n];
        SepAtComplete(t, k, b[k..k + n]);
      }
    }
  }

  /** The blocks are cut at every blank line: none of them still holds one. */
  lemma {:induction false} SplitNoBlankLine(t: string)
    ensures forall j :: 0 <= j < |Split(t)| ==> NoBlankLine(Split(t)[j])
    decreases |t|
  {
    FirstSepFromLeftmost(t, 0);
    match FirstSep(t)
    case None =>
      NoBlankLineInPrefix(t, |t|);
      assert t[..|t|] == t;
    case Some((q, n)) =>
      var rest := t[q + n..];
      NoBlankLineInPrefix(t, q);
      SplitNoBlankLine(rest);
      assert Split(t) == [t[..q]] + Split(rest);
      NoBlankLineCons(t[..q], Split(rest));
  }

  lemma NoBlankLineCons(b: string, blocks: seq<string>)
    requires NoBlankLine(b)
    requires forall j :: 0 <= j < |blocks| ==> NoBlankLine(blocks[j])
    ensures forall j :: 0 <= j < |[b] + blocks| ==> NoBlankLine(([b] + blocks)[j])
  {
    forall j | 0 <= j < |[b] + blocks| ensures NoBlankLine(([b] + blocks)[j]) {
      if j > 0 {
        assert ([b] + blocks)[j] == blocks[j - 1];
      }
    }
  }

  /** Text with no blank line is a single block, the text itself (so "" splits into [""]). */
  lemma SplitWithoutBlankLine(t: string)
    requires NoBlankLine(t)
    ensures Split(t) == [t]
  {
    FirstSepFromFound(t, 0);
  }
}
