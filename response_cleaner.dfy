/**
 * `cleanResponse` of server.js: a fixed chain of text rewrites applied to a
 * language model's raw output before it is returned to the caller.
 *
 * Each `replace(/.../g, ...)` of the chain is `ReplaceAll(p, s)` for one
 * `Pattern` p.  `MatchAt(p, s, i)` is the match the regular-expression engine
 * finds when it starts at index i (leftmost alternative first, lazy `*?`
 * stopping at the nearest delimiter, greedy `[^>]*` and `\n{3,}` taking the
 * longest run); the table of these matches is walked by `Scanner.Scan`.
 * The five global replacements use four kinds of pattern, none of which
 * can match the empty string, so every match moves the scan forward.
 */
module ResponseCleaner {
  import opened Text
  import opened Scanner

  /** The kinds of pattern of the five global replacements. */
  datatype Pattern =
    | Delimited(open: string, close: string) // open[\s\S]*?close, case-sensitive, replaced by ''
    | ThinkingLabel                          // /thinking:[\s\S]*?(response:|answer:)/gi, replaced by '$1'
    | AnyTag                                 // /<[^>]*>/g, replaced by ''
    | NewlineRun                             // /\n{3,}/g, replaced by '\n\n'

  predicate ValidPattern(p: Pattern) {
    p.Delimited? ==> p.open != []
  }

  const ThinkBlock: Pattern := Delimited("<think>", "</think>")
  const BracketBlock: Pattern := Delimited("[thinking]", "[/thinking]")

  const Fallback: string :=
    "The AI provided a response, but it was empty after cleaning. Please try again with a different prompt."

  /**
   * `(response:|answer:)` at index q, case-insensitively, alternatives tried
   * in that order: the length of the label found there.
   */
  function LabelAt(s: string, q: nat): (r: Option<nat>)
    ensures r.Some? ==> q + r.value <= |s| && (r.value == 9 || r.value == 7)
  {
    if MatchesAt(s, q, "response:", true) then Some(9)
    else if MatchesAt(s, q, "answer:", true) then Some(7)
    else None
  }

  /** The nearest index at or after `from` where a label starts. */
  function FindLabel(s: string, from: nat): (r: Option<nat>)
    requires from <= |s|
    ensures r.Some? ==> from <= r.value && LabelAt(s, r.value).Some?
    decreases |s| - from
  {
    if LabelAt(s, from).Some? then Some(from)
    else if from == |s| then None
    else FindLabel(s, from + 1)
  }

  /** `FindLabel` finds the nearest label, and finds none only when there is none. */
  lemma {:induction false} FindLabelNearest(s: string, from: nat)
    requires from <= |s|
    ensures FindLabel(s, from).Some? ==>
      forall q :: from <= q < FindLabel(s, from).value ==> LabelAt(s, q).None?
    ensures FindLabel(s, from).None? ==> forall q :: from <= q <= |s| ==> LabelAt(s, q).None?
    decreases |s| - from
  {
    if LabelAt(s, from).None? && from < |s| {
      FindLabelNearest(s, from + 1);
    }
  }

  /** A label with none before it (from `from` on) is the one `FindLabel` finds. */
  lemma {:induction false} FindLabelFirst(s: string, from: nat, k: nat)
    requires from <= k <= |s| && LabelAt(s, k).Some?
    requires forall q :: from <= q < k ==> LabelAt(s, q).None?
    ensures FindLabel(s, from) == Some(k)
    decreases k - from
  {
    if from < k {
      FindLabelFirst(s, from + 1, k);
    }
  }

  /** Length of the run of '\n' characters starting at index i. */
  function NewlineRunLength(s: string, i: nat): (n: nat)
    requires i <= |s|
    ensures i + n <= |s|
    ensures i + n == |s| || s[i + n] != '\n'
    decreases |s| - i
  {
    if i < |s| && s[i] == '\n' then 1 + NewlineRunLength(s, i + 1) else 0
  }

  /** The run is made of newlines only. */
  lemma {:induction false} NewlineRunAll(s: string, i: nat)
    requires i <= |s|
    ensures forall k :: i <= k < i + NewlineRunLength(s, i) ==> s[k] == '\n'
    decreases |s| - i
  {
    if i < |s| && s[i] == '\n' {
      NewlineRunAll(s, i + 1);
    }
  }

  /** `open[\s\S]*?close` started at i: through the nearest `close` after `open`. */
  function DelimitedMatch(open: string, close: string, s: string, i: nat): (h: Option<Hit>)
    requires open != [] && i < |s|
    ensures h.Some? ==> i < h.value.end <= |s| && h.value.replacement == ""
  {
    if MatchesAt(s, i, open, false) then
      match IndexOf(s, close, i + |open|, false)
      case Some(k) => Some(Hit(k + |close|, ""))
      case None => None
    else None
  }

  /** The label at q, as a match ending after it and replaced by its own text (`$1`). */
  function LabelHit(s: string, q: nat): (h: Option<Hit>)
    ensures h.Some? == LabelAt(s, q).Some?
    ensures h.Some? ==> q < h.value.end <= |s| && h.value.replacement == s[q..h.value.end]
  {
    match LabelAt(s, q)
    case Some(n) => Some(Hit(q + n, s[q..q + n]))
    case None => None
  }

  /** `[\s\S]*?(response:|answer:)` started at `from`: through the nearest label, replaced by it. */
  function LabelAfter(s: string, from: nat): (h: Option<Hit>)
    requires from <= |s|
    ensures h.Some? ==> from < h.value.end <= |s|
  {
    match FindLabel(s, from)
    case Some(q) => LabelHit(s, q)
    case None => None
  }

  /** `thinking:[\s\S]*?(response:|answer:)` started at i, replaced by the label it ends with. */
  function ThinkingMatch(s: string, i: nat): (h: Option<Hit>)
    requires i < |s|
    ensures h.Some? ==> i < h.value.end <= |s|
  {
    if MatchesAt(s, i, "thinking:", true) then LabelAfter(s, i + 9) else None
  }

  /** `<[^>]*>` started at i: through the first '>' after the '<'. */
  function TagMatch(s: string, i: nat): (h: Option<Hit>)
    requires i < |s|
    ensures h.Some? ==> i < h.value.end <= |s| && h.value.replacement == ""
  {
    if s[i] == '<' then
      match IndexOf(s, ">", i + 1, false)
      case Some(k) => Some(Hit(k + 1, ""))
      case None => None
    else None
  }

  /** `\n{3,}` started at i: the whole run of newlines, replaced by two. */
  function NewlineMatch(s: string, i: nat): (h: Option<Hit>)
    requires i < |s|
    ensures h.Some? ==> i < h.value.end <= |s| && h.value.replacement == "\n\n"
  {
    var n := NewlineRunLength(s, i);
    if n >= 3 then Some(Hit(i + n, "\n\n")) else None
  }

  /** The match of p that the engine finds when started at index i, if any. */
  function MatchAt(p: Pattern, s: string, i: nat): (h: Option<Hit>)
    requires ValidPattern(p) && i < |s|
    ensures h.Some? ==> i < h.value.end <= |s|
  {
    match p
    case Delimited(open, close) => DelimitedMatch(open, close, s, i)
    case ThinkingLabel => ThinkingMatch(s, i)
    case AnyTag => TagMatch(s, i)
    case NewlineRun => NewlineMatch(s, i)
  }

  /** The match of p at every start index of s. */
  function Hits(p: Pattern, s: string): (t: seq<Option<Hit>>)
    requires ValidPattern(p)
    ensures Advancing(s, t)
    ensures forall q :: 0 <= q < |s| ==> t[q] == MatchAt(p, s, q)
  {
    seq(|s|, q requires 0 <= q < |s| => MatchAt(p, s, q))
  }

  /** `s.replace(p, ...)` for the global pattern p. */
  function ReplaceAll(p: Pattern, s: string): string
    requires ValidPattern(p)
  {
    Scan(s, Hits(p, s), 0)
  }

  /** `^(response:|answer:)\s*` with the `i` flag: one leading label and the whitespace after it. */
  function StripLeadingLabel(s: string): (r: string)
    ensures LabelAt(s, 0).None? ==> r == s
    ensures LabelAt(s, 0).Some? ==>
      && LabelAt(s, 0).value + |r| <= |s|
      && r == s[|s| - |r|..]
      && AllSpace(s[LabelAt(s, 0).value..|s| - |r|])
      && (r == [] || !IsJsSpace(r[0]))
  {
    match LabelAt(s, 0)
    case None => s
    case Some(n) =>
      var r := TrimStart(s[n..]);
      assert s[n..][..|s[n..]| - |r|] == s[n..|s| - |r|];
      r
  }

  function TrimStart(s: string): (r: string)
    ensures |r| <= |s| && r == s[|s| - |r|..]
    ensures AllSpace(s[..|s| - |r|])
    ensures r == [] || !IsJsSpace(r[0])
  {
    s[SpaceRun(s, 0)..]
  }

  function TrimEnd(s: string): (r: string)
    ensures |r| <= |s| && r == s[..|r|]
    ensures AllSpace(s[|r|..])
    ensures r == [] || !IsJsSpace(r[|r| - 1])
    decreases |s|
  {
    if |s| > 0 && IsJsSpace(s[|s| - 1]) then
      var r := TrimEnd(s[..|s| - 1]);
      assert s[|r|..] == s[..|s| - 1][|r|..] + [s[|s| - 1]];
      r
    else s
  }

  /** `String.prototype.trim`. */
  function Trim(s: string): string {
    TrimEnd(TrimStart(s))
  }

  /** No leading and no trailing whitespace. */
  predicate Trimmed(s: string) {
    s == [] || (!IsJsSpace(s[0]) && !IsJsSpace(s[|s| - 1]))
  }

  /** No '<' has a '>' anywhere after it: nothing `<[^>]*>` could match. */
  predicate TagFree(s: string) {
    forall i, j :: 0 <= i < j < |s| && s[i] == '<' ==> s[j] != '>'
  }

  /** Three consecutive newlines occur nowhere. */
  predicate NoTripleNewline(s: string) {
    forall k :: 0 <= k < |s| - 2 ==> !(s[k] == '\n' && s[k + 1] == '\n' && s[k + 2] == '\n')
  }

  /** Lines 28-42: everything before the empty-result check. */
  function Pipeline(response: string): string {
    var noThink := ReplaceAll(ThinkBlock, response);
    var noBracket := ReplaceAll(BracketBlock, noThink);
    var labelled := ReplaceAll(ThinkingLabel, noBracket);
    var untagged := ReplaceAll(AnyTag, labelled);
    var unlabelled := StripLeadingLabel(untagged);
    var collapsed := ReplaceAll(NewlineRun, unlabelled);
    Trim(collapsed)
  }

  /** `cleanResponse(response)` for a string argument. */
  function CleanResponse(response: string): (r: string)
    ensures r == "" <==> response == ""
  {
    if response == "" then ""
    else
      var cleaned := Pipeline(response);
      if cleaned == "" then Fallback else cleaned
  }

  // ---------------------------------------------------------------------
  // The scanner: locality, what survives, where a match can start
  // ---------------------------------------------------------------------

  /** Some character a match of p may begin with. */
  predicate MayStart(p: Pattern, c: char)
    requires ValidPattern(p)
  {
    match p
    case Delimited(open, _) => c == open[0]
    case ThinkingLabel => Lower(c) == 't'
    case AnyTag => c == '<'
    case NewlineRun => c == '\n'
  }

  lemma MatchStart(p: Pattern, s: string, i: nat)
    requires ValidPattern(p) && i < |s| && MatchAt(p, s, i).Some?
    ensures MayStart(p, s[i])
  {
    match p
    case Delimited(open, _) =>
      MatchesAtHead(s, i, open, false);
    case ThinkingLabel =>
      MatchesAtHead(s, i, "thinking:", true);
    case AnyTag =>
    case NewlineRun =>
  }

  lemma ThinkingHitDeletes(s: string, i: nat)
    requires i < |s| && ThinkingMatch(s, i).Some?
    ensures IsSubseq(ThinkingMatch(s, i).value.replacement, s[i..ThinkingMatch(s, i).value.end])
  {
    var h := ThinkingMatch(s, i).value;
    var q := FindLabel(s, i + 9).value;
    assert h.replacement == s[q..h.end];
    assert s[i..h.end][q - i..] == s[q..h.end];
    SubseqRefl(s[q..h.end]);
    SubseqDropPrefix(h.replacement, s[i..h.end], q - i);
  }

  lemma NewlineHitDeletes(s: string, i: nat)
    requires i < |s| && NewlineMatch(s, i).Some?
    ensures IsSubseq(NewlineMatch(s, i).value.replacement, s[i..NewlineMatch(s, i).value.end])
  {
    var h := NewlineMatch(s, i).value;
    var t := s[i..h.end];
    NewlineRunAll(s, i);
    assert t[0] == s[i] && t[1] == s[i + 1];
    assert t[0] == '\n' && t[1] == '\n';
    assert t == "\n\n" + t[2..];
    SubseqRefl("\n\n");
    SubseqConcat("\n\n", "\n\n", [], t[2..]);
    assert "\n\n" + [] == "\n\n";
  }

  /** A match replaces its text by a subsequence of that text. */
  lemma HitDeletes(p: Pattern, s: string, i: nat)
    requires ValidPattern(p) && i < |s| && MatchAt(p, s, i).Some?
    ensures IsSubseq(MatchAt(p, s, i).value.replacement, s[i..MatchAt(p, s, i).value.end])
  {
    match p
    case ThinkingLabel => ThinkingHitDeletes(s, i);
    case NewlineRun => NewlineHitDeletes(s, i);
    case Delimited(_, _) =>
    case AnyTag =>
  }

  lemma HitsDeleting(p: Pattern, s: string)
    requires ValidPattern(p)
    ensures Deleting(s, Hits(p, s))
  {
    forall q | 0 <= q < |s| && MatchAt(p, s, q).Some?
      ensures IsSubseq(MatchAt(p, s, q).value.replacement, s[q..MatchAt(p, s, q).value.end])
    {
      HitDeletes(p, s, q);
    }
  }

  /** Text in which no match starts is copied unchanged. */
  lemma ReplaceKeepsUnmatched(p: Pattern, s: string)
    requires ValidPattern(p)
    requires forall q :: 0 <= q < |s| ==> MatchAt(p, s, q).None?
    ensures ReplaceAll(p, s) == s
  {
    ScanKeepsUnmatched(s, Hits(p, s), 0, |s|);
    assert s[0..|s|] == s;
  }

  lemma NoStartNoMatch(p: Pattern, s: string, a: nat, b: nat)
    requires ValidPattern(p) && a <= b <= |s|
    requires forall c :: c in s[a..b] ==> !MayStart(p, c)
    ensures forall q :: a <= q < b ==> MatchAt(p, s, q).None?
  {
    forall q | a <= q < b
      ensures MatchAt(p, s, q).None?
    {
      assert s[a..b][q - a] == s[q];
      if MatchAt(p, s, q).Some? {
        MatchStart(p, s, q);
      }
    }
  }

  /** A string with no character a match could begin with passes through. */
  lemma Untouched(p: Pattern, s: string)
    requires ValidPattern(p)
    requires forall c :: c in s ==> !MayStart(p, c)
    ensures ReplaceAll(p, s) == s
  {
    assert s[0..|s|] == s;
    NoStartNoMatch(p, s, 0, |s|);
    ReplaceKeepsUnmatched(p, s);
  }

  // Dropping a prefix that the engine has already passed does not change
  // what it matches later on.

  lemma LabelAtShift(u: string, v: string, j: nat)
    ensures LabelAt(u + v, |u| + j) == LabelAt(v, j)
  {
    MatchesAtShift(u, v, j, "response:", true);
    MatchesAtShift(u, v, j, "answer:", true);
  }

  lemma {:induction false} FindLabelShift(u: string, v: string, j: nat)
    requires j <= |v|
    ensures FindLabel(u + v, |u| + j) == Offset(FindLabel(v, j), |u|)
    decreases |v| - j
  {
    LabelAtShift(u, v, j);
    var a := FindLabel(u + v, |u| + j);
    var b := FindLabel(v, j);
    if LabelAt(v, j).Some? {
      assert FindLabel(v, j) == Some(j);
      assert FindLabel(u + v, |u| + j) == Some(|u| + j);
    } else if j == |v| {
      assert FindLabel(v, j) == None;
      assert FindLabel(u + v, |u| + j) == None;
    } else {
      FindLabelShift(u, v, j + 1);
      assert |u| + j + 1 == |u| + (j + 1);
      assert FindLabel(v, j) == FindLabel(v, j + 1);
      assert FindLabel(u + v, |u| + j) == FindLabel(u + v, |u| + (j + 1));
    }
    assert a == Offset(b, |u|);
  }

  lemma {:induction false} NewlineRunShift(u: string, v: string, j: nat)
    requires j <= |v|
    ensures NewlineRunLength(u + v, |u| + j) == NewlineRunLength(v, j)
    decreases |v| - j
  {
    if j < |v| {
      assert (u + v)[|u| + j] == v[j];
      NewlineRunShift(u, v, j + 1);
      assert |u| + j + 1 == |u| + (j + 1);
    }
  }

  lemma DelimitedMatchShift(open: string, close: string, u: string, v: string, j: nat)
    requires open != [] && j < |v|
    ensures DelimitedMatch(open, close, u + v, |u| + j) == Moved(DelimitedMatch(open, close, v, j), |u|)
  {
    MatchesAtShift(u, v, j, open, false);
    if MatchesAt(v, j, open, false) {
      IndexOfShift(u, v, j + |open|, close, false);
      assert |u| + j + |open| == |u| + (j + |open|);
    }
  }

  lemma LabelHitShift(u: string, v: string, q: nat)
    requires q <= |v|
    ensures LabelHit(u + v, |u| + q) == Moved(LabelHit(v, q), |u|)
  {
    LabelAtShift(u, v, q);
    if LabelAt(v, q).Some? {
      var n := LabelAt(v, q).value;
      assert (u + v)[|u| + q..|u| + q + n] == v[q..q + n];
    }
  }

  lemma LabelAfterFound(s: string, from: nat, q: nat)
    requires from <= |s| && FindLabel(s, from) == Some(q)
    ensures LabelAfter(s, from) == LabelHit(s, q)
  {
  }

  lemma LabelAfterNotFound(s: string, from: nat)
    requires from <= |s| && FindLabel(s, from) == None
    ensures LabelAfter(s, from) == None
  {
  }

  lemma LabelAfterShift(u: string, v: string, j: nat)
    requires j <= |v|
    ensures LabelAfter(u + v, |u| + j) == Moved(LabelAfter(v, j), |u|)
  {
    FindLabelShift(u, v, j);
    var b := FindLabel(v, j);
    if b.Some? {
      var q := b.value;
      var a := FindLabel(u + v, |u| + j);
      assert a == Some(|u| + q);
      LabelAfterFound(v, j, q);
      LabelAfterFound(u + v, |u| + j, |u| + q);
      LabelHitShift(u, v, q);
    } else {
      LabelAfterNotFound(v, j);
      LabelAfterNotFound(u + v, |u| + j);
    }
  }

  lemma ThinkingMatchShift(u: string, v: string, j: nat)
    requires j < |v|
    ensures ThinkingMatch(u + v, |u| + j) == Moved(ThinkingMatch(v, j), |u|)
  {
    MatchesAtShift(u, v, j, "thinking:", true);
    if MatchesAt(v, j, "thinking:", true) {
      LabelAfterShift(u, v, j + 9);
      assert |u| + j + 9 == |u| + (j + 9);
    }
  }

  lemma TagMatchShift(u: string, v: string, j: nat)
    requires j < |v|
    ensures TagMatch(u + v, |u| + j) == Moved(TagMatch(v, j), |u|)
  {
    assert (u + v)[|u| + j] == v[j];
    IndexOfShift(u, v, j + 1, ">", false);
    assert |u| + j + 1 == |u| + (j + 1);
  }

  lemma NewlineMatchShift(u: string, v: string, j: nat)
    requires j < |v|
    ensures NewlineMatch(u + v, |u| + j) == Moved(NewlineMatch(v, j), |u|)
  {
    NewlineRunShift(u, v, j);
  }

  lemma MatchAtShift(p: Pattern, u: string, v: string, j: nat)
    requires ValidPattern(p) && j < |v|
    ensures MatchAt(p, u + v, |u| + j) == Moved(MatchAt(p, v, j), |u|)
  {
    match p
    case Delimited(open, close) => DelimitedMatchShift(open, close, u, v, j);
    case ThinkingLabel => ThinkingMatchShift(u, v, j);
    case AnyTag => TagMatchShift(u, v, j);
    case NewlineRun => NewlineMatchShift(u, v, j);
  }

  lemma HitsShift(p: Pattern, u: string, v: string)
    requires ValidPattern(p)
    ensures ShiftedTable(u, v, Hits(p, u + v), Hits(p, v))
  {
    forall k | 0 <= k < |v|
      ensures Hits(p, u + v)[|u| + k] == Moved(Hits(p, v)[k], |u|)
    {
      MatchAtShift(p, u, v, k);
    }
  }

  /**
   * A prefix in which no match starts is copied, and the rest is rewritten
   * as if it stood alone.
   */
  lemma ReplaceAfterUnmatchedPrefix(p: Pattern, u: string, v: string)
    requires ValidPattern(p)
    requires forall q :: 0 <= q < |u| ==> MatchAt(p, u + v, q).None?
    ensures ReplaceAll(p, u + v) == u + ReplaceAll(p, v)
  {
    var s := u + v;
    assert s[0..|u|] == u;
    ScanKeepsUnmatched(s, Hits(p, s), 0, |u|);
    HitsShift(p, u, v);
    ScanShift(u, v, Hits(p, s), Hits(p, v), 0);
  }

  /** A prefix holding no character a match could begin with is copied. */
  lemma ReplaceAfterPlainPrefix(p: Pattern, u: string, v: string)
    requires ValidPattern(p)
    requires forall c :: c in u ==> !MayStart(p, c)
    ensures ReplaceAll(p, u + v) == u + ReplaceAll(p, v)
  {
    var s := u + v;
    assert s[0..|u|] == u;
    NoStartNoMatch(p, s, 0, |u|);
    ReplaceAfterUnmatchedPrefix(p, u, v);
  }

  /** A match at the very start is replaced, then the rest is rewritten on its own. */
  lemma ReplaceAfterLeadingHit(p: Pattern, m: string, v: string, rep: string)
    requires ValidPattern(p) && m != []
    requires MatchAt(p, m + v, 0) == Some(Hit(|m|, rep))
    ensures ReplaceAll(p, m + v) == rep + ReplaceAll(p, v)
  {
    HitsShift(p, m, v);
    ScanShift(m, v, Hits(p, m + v), Hits(p, v), 0);
  }

  // ---------------------------------------------------------------------
  // Lines 28-29: delimited thinking blocks
  // ---------------------------------------------------------------------

  lemma DelimitedMatchBlock(open: string, close: string, x: string, v: string)
    requires open != []
    requires forall q :: 0 <= q < |x| ==> !MatchesAt(x + close + v, q, close, false)
    ensures DelimitedMatch(open, close, open + x + close + v, 0) == Some(Hit(|open| + |x| + |close|, ""))
  {
    var w := open + x + close + v;
    assert w == open + (x + close + v);
    MatchesOwnPrefix(open, x + close + v, false);
    forall q | |open| <= q < |open| + |x|
      ensures !MatchesAt(w, q, close, false)
    {
      MatchesAtShift(open, x + close + v, q - |open|, close, false);
    }
    assert w == (open + x) + (close + v);
    MatchesAtShift(open + x, close + v, 0, close, false);
    MatchesOwnPrefix(close, v, false);
    IndexOfFirst(w, close, |open|, |open| + |x|, false);
  }

  /**
   * A block from `open` to the nearest following `close` disappears with
   * everything inside it, newlines included; the text before it is kept and
   * the text after it is cleaned on its own.
   */
  lemma DelimitedBlockRemoved(open: string, close: string, u: string, x: string, v: string)
    requires open != []
    requires open[0] !in u
    requires forall q :: 0 <= q < |x| ==> !MatchesAt(x + close + v, q, close, false)
    ensures ReplaceAll(Delimited(open, close), u + open + x + close + v)
         == u + ReplaceAll(Delimited(open, close), v)
  {
    var p := Delimited(open, close);
    var m := open + x + close;
    assert u + open + x + close + v == u + (m + v);
    ReplaceAfterPlainPrefix(p, u, m + v);
    DelimitedMatchBlock(open, close, x, v);
    assert m + v == open + x + close + v;
    ReplaceAfterLeadingHit(p, m, v, "");
  }

  /** Without any closing marker the block step changes nothing. */
  lemma UnclosedBlockKept(open: string, close: string, s: string)
    requires open != []
    requires forall q :: 0 <= q <= |s| ==> !MatchesAt(s, q, close, false)
    ensures ReplaceAll(Delimited(open, close), s) == s
  {
    var p := Delimited(open, close);
    forall q | 0 <= q < |s|
      ensures MatchAt(p, s, q).None?
    {
      if MatchesAt(s, q, open, false) {
        var r := IndexOf(s, close, q + |open|, false);
        assert r.Some? ==> MatchesAt(s, r.value, close, false);
      }
    }
    ReplaceKeepsUnmatched(p, s);
  }

  // ---------------------------------------------------------------------
  // Line 30: `thinking: ... response:` collapses to the label
  // ---------------------------------------------------------------------

  /** `t` spells `thinking:` in some mix of upper and lower case. */
  predicate IsThinkingWord(t: string) {
    |t| == 9 && MatchesAt(t, 0, "thinking:", true)
  }

  /** `l` spells `response:` or `answer:` in some mix of upper and lower case. */
  predicate IsLabelWord(l: string) {
    (|l| == 9 && MatchesAt(l, 0, "response:", true)) || (|l| == 7 && MatchesAt(l, 0, "answer:", true))
  }

  lemma LabelWordAt(l: string, v: string)
    requires IsLabelWord(l)
    ensures LabelAt(l + v, 0) == Some(|l|)
  {
    if |l| == 9 {
      MatchesAtPrefix(l, v, 0, "response:", true);
    } else {
      MatchesAtPrefix(l, v, 0, "answer:", true);
      MatchesAtHead(l, 0, "answer:", true);
      assert (l + v)[0] == l[0];
      MatchesAtHead(l + v, 0, "response:", true);
    }
  }

  /** After `thinking:` the lazy scan stops at the first label that follows. */
  lemma LabelAfterThinkingWord(t: string, x: string, l: string, v: string)
    requires IsThinkingWord(t) && IsLabelWord(l)
    requires forall q :: 0 <= q < |x| ==> LabelAt(x + l + v, q).None?
    ensures FindLabel(t + x + l + v, 9) == Some(9 + |x|)
  {
    var w := t + x + l + v;
    assert w == t + (x + l + v);
    forall q | 9 <= q < 9 + |x|
      ensures LabelAt(w, q).None?
    {
      LabelAtShift(t, x + l + v, q - 9);
    }
    LabelWordAt(l, v);
    assert w == (t + x) + (l + v);
    LabelAtShift(t + x, l + v, 0);
    FindLabelFirst(w, 9, 9 + |x|);
  }

  lemma ThinkingMatchSpan(t: string, x: string, l: string, v: string)
    requires IsThinkingWord(t) && IsLabelWord(l)
    requires forall q :: 0 <= q < |x| ==> LabelAt(x + l + v, q).None?
    ensures ThinkingMatch(t + x + l + v, 0) == Some(Hit(|t| + |x| + |l|, l))
  {
    var w := t + x + l + v;
    assert w == t + (x + l + v);
    MatchesAtPrefix(t, x + l + v, 0, "thinking:", true);
    LabelAfterThinkingWord(t, x, l, v);
    LabelAfterFound(w, 9, 9 + |x|);
    LabelHitAtWord(t + x, l, v);
    ConcatAssoc(t + x, l, v);
  }

  /** A label word behind any prefix is a label match that keeps the word. */
  lemma LabelHitAtWord(u: string, l: string, v: string)
    requires IsLabelWord(l)
    ensures LabelHit(u + (l + v), |u|) == Some(Hit(|u| + |l|, l))
  {
    LabelWordAt(l, v);
    assert (l + v)[0..|l|] == l;
    assert LabelHit(l + v, 0) == Some(Hit(|l|, l));
    LabelHitShift(u, l + v, 0);
  }

  /**
   * From `thinking:` through the nearest following label, the text becomes
   * that label with its own casing.  The text before is kept when no match
   * starts in it, and the text after is rewritten on its own.
   */
  lemma ThinkingCollapsedToLabel(u: string, t: string, x: string, l: string, v: string)
    requires forall q :: 0 <= q < |u| ==> MatchAt(ThinkingLabel, u + t + x + l + v, q).None?
    requires IsThinkingWord(t) && IsLabelWord(l)
    requires forall q :: 0 <= q < |x| ==> LabelAt(x + l + v, q).None?
    ensures ReplaceAll(ThinkingLabel, u + t + x + l + v) == u + l + ReplaceAll(ThinkingLabel, v)
  {
    var m := t + x + l;
    assert u + t + x + l + v == u + (m + v);
    ReplaceAfterUnmatchedPrefix(ThinkingLabel, u, m + v);
    ThinkingMatchSpan(t, x, l, v);
    assert m + v == t + x + l + v;
    ReplaceAfterLeadingHit(ThinkingLabel, m, v, l);
  }

  // ---------------------------------------------------------------------
  // Line 33: remaining tags
  // ---------------------------------------------------------------------

  lemma TagFreeCons(c: char, t: string)
    requires TagFree(t) && (c == '<' ==> '>' !in t)
    ensures TagFree([c] + t)
  {
    var s := [c] + t;
    forall i, j | 0 <= i < j < |s| && s[i] == '<'
      ensures s[j] != '>'
    {
      assert s[j] == t[j - 1];
      if i > 0 {
        assert s[i] == t[i - 1];
      }
    }
  }

  /** After the tag step no '<' is followed anywhere by a '>'. */
  lemma {:induction false} TagStepLeavesNoTag(s: string, i: nat)
    requires i <= |s|
    ensures TagFree(Scan(s, Hits(AnyTag, s), i))
    decreases |s| - i
  {
    var t := Hits(AnyTag, s);
    if i < |s| {
      match t[i]
      case Some(h) =>
        TagStepLeavesNoTag(s, h.end);
      case None =>
        var rest := Scan(s, t, i + 1);
        TagStepLeavesNoTag(s, i + 1);
        if s[i] == '<' {
          HitsDeleting(AnyTag, s);
          ScanDeletes(s, t, i + 1);
          SubseqChars(rest, s[i + 1..]);
          IndexOfLeftmost(s, ">", i + 1, false);
          forall q | i + 1 <= q < |s|
            ensures s[q] != '>'
          {
            MatchesAtSlice(s, q, ">");
            assert s[q..q + 1] == [s[q]];
          }
        }
        TagFreeCons(s[i], rest);
    }
  }

  /** Deleting characters cannot create a tag. */
  lemma {:induction false} TagFreeSubseq(a: string, b: string)
    requires IsSubseq(a, b) && TagFree(b)
    ensures TagFree(a)
    decreases |b|
  {
    if |a| > 0 {
      assert TagFree(b[1..]) by {
        forall i, j | 0 <= i < j < |b[1..]| && b[1..][i] == '<'
          ensures b[1..][j] != '>'
        {
          assert b[1..][i] == b[i + 1] && b[1..][j] == b[j + 1];
        }
      }
      if a[0] == b[0] && IsSubseq(a[1..], b[1..]) {
        TagFreeSubseq(a[1..], b[1..]);
        if a[0] == '<' {
          SubseqChars(a[1..], b[1..]);
          forall c | c in b[1..]
            ensures c != '>'
          {
            var j :| 0 <= j < |b[1..]| && b[1..][j] == c;
            assert b[j + 1] == c;
          }
        }
        TagFreeCons(a[0], a[1..]);
        assert [a[0]] + a[1..] == a;
      } else {
        TagFreeSubseq(a, b[1..]);
      }
    }
  }

  lemma TagMatchSpan(x: string, v: string)
    requires '>' !in x
    ensures TagMatch("<" + x + ">" + v, 0) == Some(Hit(|x| + 2, ""))
  {
    var w := "<" + x + ">" + v;
    forall q | 1 <= q < 1 + |x|
      ensures !MatchesAt(w, q, ">", false)
    {
      assert w[q + 0] == x[q - 1] && x[q - 1] in x;
      MatchesAtHead(w, q, ">", false);
    }
    assert w == ("<" + x) + (">" + v);
    MatchesAtShift("<" + x, ">" + v, 0, ">", false);
    MatchesOwnPrefix(">", v, false);
    IndexOfFirst(w, ">", 1, 1 + |x|, false);
  }

  /**
   * A tag `<...>` is deleted.  The text before it is kept when no tag match
   * starts in it, and the text after is rewritten on its own.
   */
  lemma TagRemoved(u: string, x: string, v: string)
    requires forall q :: 0 <= q < |u| ==> MatchAt(AnyTag, u + "<" + x + ">" + v, q).None?
    requires '>' !in x
    ensures ReplaceAll(AnyTag, u + "<" + x + ">" + v) == u + ReplaceAll(AnyTag, v)
  {
    var m := "<" + x + ">";
    assert u + "<" + x + ">" + v == u + (m + v);
    ReplaceAfterUnmatchedPrefix(AnyTag, u, m + v);
    TagMatchSpan(x, v);
    assert m + v == "<" + x + ">" + v;
    ReplaceAfterLeadingHit(AnyTag, m, v, "");
  }

  /** The tag step changes a string exactly when some '<' has a '>' after it. */
  lemma TagStepFixesExactlyTagFree(s: string)
    ensures ReplaceAll(AnyTag, s) == s <==> TagFree(s)
  {
    TagStepLeavesNoTag(s, 0);
    if TagFree(s) {
      forall q | 0 <= q < |s|
        ensures MatchAt(AnyTag, s, q).None?
      {
        if s[q] == '<' {
          forall k | q + 1 <= k < |s|
            ensures !MatchesAt(s, k, ">", false)
          {
            assert s[k] != '>';
            MatchesAtHead(s, k, ">", false);
          }
        }
      }
      ReplaceKeepsUnmatched(AnyTag, s);
    }
  }

  // ---------------------------------------------------------------------
  // Line 39: runs of newlines
  // ---------------------------------------------------------------------

  lemma NoTripleCons(c: char, t: string)
    requires NoTripleNewline(t)
    requires !(c == '\n' && |t| >= 2 && t[0] == '\n' && t[1] == '\n')
    ensures NoTripleNewline([c] + t)
  {
    var s := [c] + t;
    forall k | 0 <= k < |s| - 2
      ensures !(s[k] == '\n' && s[k + 1] == '\n' && s[k + 2] == '\n')
    {
      assert s[k + 1] == t[k] && s[k + 2] == t[k + 1];
      if k > 0 {
        assert s[k] == t[k - 1];
      }
    }
  }

  lemma NoTripleAfterPair(t: string)
    requires NoTripleNewline(t) && (t == [] || t[0] != '\n')
    ensures NoTripleNewline("\n\n" + t)
  {
    NoTripleCons('\n', t);
    assert "\n" + t == [('\n')] + t;
    NoTripleCons('\n', "\n" + t);
    assert "\n\n" + t == ['\n'] + ("\n" + t);
  }

  /**
   * The newline step leaves no three consecutive newlines; what it produces
   * starts with one or two newlines only where its input did.
   */
  lemma {:induction false} NewlineStepBounded(s: string, i: nat)
    requires i <= |s|
    ensures var r := Scan(s, Hits(NewlineRun, s), i);
      && NoTripleNewline(r)
      && (|r| > 0 && r[0] == '\n' ==> i < |s| && s[i] == '\n')
      && (|r| > 1 && r[0] == '\n' && r[1] == '\n' ==> i + 1 < |s| && s[i + 1] == '\n')
    decreases |s| - i
  {
    var t := Hits(NewlineRun, s);
    if i < |s| {
      match t[i]
      case Some(h) =>
        var rest := Scan(s, t, h.end);
        NewlineStepBounded(s, h.end);
        NoTripleAfterPair(rest);
      case None =>
        var rest := Scan(s, t, i + 1);
        NewlineStepBounded(s, i + 1);
        NoTripleCons(s[i], rest);
    }
  }

  /** The newline step changes a string exactly when it has three newlines in a row. */
  lemma NewlineStepFixesExactlyNormal(s: string)
    ensures ReplaceAll(NewlineRun, s) == s <==> NoTripleNewline(s)
  {
    NewlineStepBounded(s, 0);
    if NoTripleNewline(s) {
      forall q | 0 <= q < |s|
        ensures MatchAt(NewlineRun, s, q).None?
      {
        NewlineRunAll(s, q);
        if q + 2 < |s| {
          assert !(s[q] == '\n' && s[q + 1] == '\n' && s[q + 2] == '\n');
        }
      }
      ReplaceKeepsUnmatched(NewlineRun, s);
    }
  }

  lemma NoTripleSlice(s: string, i: nat, j: nat)
    requires i <= j <= |s| && NoTripleNewline(s)
    ensures NoTripleNewline(s[i..j])
  {
    var t := s[i..j];
    forall k | 0 <= k < |t| - 2
      ensures !(t[k] == '\n' && t[k + 1] == '\n' && t[k + 2] == '\n')
    {
      assert t[k] == s[i + k] && t[k + 1] == s[i + k + 1] && t[k + 2] == s[i + k + 2];
    }
  }

  // ---------------------------------------------------------------------
  // Lines 36 and 42: the leading label and trim
  // ---------------------------------------------------------------------

  /** `trim` keeps a contiguous middle part, removing only whitespace around it. */
  lemma TrimSlice(s: string)
    ensures var i := SpaceRun(s, 0); var r := Trim(s);
      && i + |r| <= |s| && r == s[i..i + |r|]
      && AllSpace(s[..i]) && AllSpace(s[i + |r|..])
      && Trimmed(r)
  {
    var i := SpaceRun(s, 0);
    var t := TrimStart(s);
    var r := TrimEnd(t);
    assert t == s[i..];
    assert r == s[i..][..|r|] == s[i..i + |r|];
    assert s[i + |r|..] == t[|r|..];
    if r != [] {
      assert r[0] == t[0];
    }
  }

  lemma TrimKeepsNoTriple(s: string)
    requires NoTripleNewline(s)
    ensures NoTripleNewline(Trim(s)) && Trimmed(Trim(s))
  {
    TrimSlice(s);
    NoTripleSlice(s, SpaceRun(s, 0), SpaceRun(s, 0) + |Trim(s)|);
  }

  /** `trim` leaves a string unchanged exactly when it has no surrounding whitespace. */
  lemma TrimFixesExactlyTrimmed(s: string)
    ensures Trim(s) == s <==> Trimmed(s)
  {
    TrimSlice(s);
    if Trimmed(s) && s != [] {
      assert SpaceRun(s, 0) == 0;
      assert TrimStart(s) == s;
      assert TrimEnd(s) == s;
    }
  }

  lemma ReplaceAllDeletes(p: Pattern, s: string)
    requires ValidPattern(p)
    ensures IsSubseq(ReplaceAll(p, s), s)
  {
    HitsDeleting(p, s);
    ScanDeletes(s, Hits(p, s), 0);
    assert s[0..] == s;
  }

  lemma TrimDeletes(s: string)
    ensures IsSubseq(Trim(s), s)
  {
    TrimSlice(s);
    SubseqSlice(s, SpaceRun(s, 0), SpaceRun(s, 0) + |Trim(s)|);
  }

  lemma StripLeadingLabelDeletes(s: string)
    ensures IsSubseq(StripLeadingLabel(s), s)
  {
    var r := StripLeadingLabel(s);
    SubseqRefl(r);
    SubseqDropPrefix(r, s, |s| - |r|);
  }

  // ---------------------------------------------------------------------
  // The whole of cleanResponse
  // ---------------------------------------------------------------------

  /** Lines 28-42 only delete characters. */
  lemma PipelineDeletes(s: string)
    ensures IsSubseq(Pipeline(s), s) && |Pipeline(s)| <= |s|
  {
    var noThink := ReplaceAll(ThinkBlock, s);
    var noBracket := ReplaceAll(BracketBlock, noThink);
    var labelled := ReplaceAll(ThinkingLabel, noBracket);
    var untagged := ReplaceAll(AnyTag, labelled);
    var unlabelled := StripLeadingLabel(untagged);
    var collapsed := ReplaceAll(NewlineRun, unlabelled);
    var r := Trim(collapsed);
    ReplaceAllDeletes(ThinkBlock, s);
    ReplaceAllDeletes(BracketBlock, noThink);
    SubseqTrans(noBracket, noThink, s);
    ReplaceAllDeletes(ThinkingLabel, noBracket);
    SubseqTrans(labelled, noBracket, s);
    ReplaceAllDeletes(AnyTag, labelled);
    SubseqTrans(untagged, labelled, s);
    StripLeadingLabelDeletes(untagged);
    SubseqTrans(unlabelled, untagged, s);
    ReplaceAllDeletes(NewlineRun, unlabelled);
    SubseqTrans(collapsed, unlabelled, s);
    TrimDeletes(collapsed);
    SubseqTrans(r, collapsed, s);
    SubseqLength(r, s);
  }

  /** After line 42 no '<' is followed by a '>'. */
  lemma PipelineTagFree(s: string)
    ensures TagFree(Pipeline(s))
  {
    var labelled := ReplaceAll(ThinkingLabel, ReplaceAll(BracketBlock, ReplaceAll(ThinkBlock, s)));
    var untagged := ReplaceAll(AnyTag, labelled);
    var unlabelled := StripLeadingLabel(untagged);
    var collapsed := ReplaceAll(NewlineRun, unlabelled);
    var r := Trim(collapsed);
    TagStepLeavesNoTag(labelled, 0);
    StripLeadingLabelDeletes(untagged);
    ReplaceAllDeletes(NewlineRun, unlabelled);
    TrimDeletes(collapsed);
    SubseqTrans(collapsed, unlabelled, untagged);
    SubseqTrans(r, collapsed, untagged);
    TagFreeSubseq(r, untagged);
  }

  /** Lines 39 and 42 leave no three newlines in a row and no surrounding whitespace. */
  lemma CollapseAndTrimNormalize(x: string)
    ensures var r := Trim(ReplaceAll(NewlineRun, x));
      NoTripleNewline(r) && Trimmed(r)
  {
    NewlineStepBounded(x, 0);
    TrimKeepsNoTriple(ReplaceAll(NewlineRun, x));
  }

  /** After line 42 no three newlines in a row and no surrounding whitespace remain. */
  lemma PipelineNormalized(s: string)
    ensures NoTripleNewline(Pipeline(s)) && Trimmed(Pipeline(s))
  {
    CollapseAndTrimNormalize(StripLeadingLabel(ReplaceAll(AnyTag, ReplaceAll(ThinkingLabel,
      ReplaceAll(BracketBlock, ReplaceAll(ThinkBlock, s))))));
  }

  /**
   * Lines 28-42 only delete characters, and leave text with no tag, no
   * three newlines in a row and no surrounding whitespace.
   */
  lemma PipelineProperties(s: string)
    ensures var r := Pipeline(s);
      IsSubseq(r, s) && |r| <= |s| && TagFree(r) && NoTripleNewline(r) && Trimmed(r)
  {
    PipelineDeletes(s);
    PipelineTagFree(s);
    PipelineNormalized(s);
  }

  /**
   * The empty string is returned unchanged; any other input yields a
   * non-empty answer: the fallback sentence exactly when the rewrites leave
   * nothing, and otherwise what remains of the input after deleting
   * characters, with no tag, no three newlines in a row and no surrounding
   * whitespace.
   */
  lemma CleanResponseProperties(s: string)
    ensures var r := CleanResponse(s);
      && (s == "" <==> r == "")
      && (s != "" && Pipeline(s) == "" ==> r == Fallback)
      && (s == "" || Pipeline(s) != "" ==> IsSubseq(r, s) && |r| <= |s| && TagFree(r) && NoTripleNewline(r) && Trimmed(r))
  {
    PipelineProperties(s);
    if s == "" {
      SubseqRefl(s);
    }
  }

  // ---------------------------------------------------------------------
  // Worked examples
  // ---------------------------------------------------------------------

  /** `Pipeline` through its seven intermediate results. */
  lemma PipelineThrough(s: string, a: string, b: string, c: string, d: string, e: string, f: string, r: string)
    requires ReplaceAll(ThinkBlock, s) == a && ReplaceAll(BracketBlock, a) == b
    requires ReplaceAll(ThinkingLabel, b) == c && ReplaceAll(AnyTag, c) == d
    requires StripLeadingLabel(d) == e && ReplaceAll(NewlineRun, e) == f && Trim(f) == r
    ensures Pipeline(s) == r
  {
  }

  /** With no `close` starting inside `x`, the nearest `close` after `x` is the one that follows it. */
  lemma NoCloseInside(x: string, close: string, v: string)
    requires close != [] && close[0] !in x
    ensures forall q :: 0 <= q < |x| ==> !MatchesAt(x + close + v, q, close, false)
  {
    var w := x + close + v;
    forall q | 0 <= q < |x|
      ensures !MatchesAt(w, q, close, false)
    {
      assert w[q + 0] == x[q];
      MatchesAtHead(w, q, close, false);
    }
  }

  /**
   * Text that none of the rewrites touches: no character a replacement could
   * start with, no leading label, no newline and no surrounding whitespace.
   */
  predicate Plain(v: string) {
    Settled(v) && LabelAt(v, 0).None?
  }

  /** Non-empty text that no rewrite except the leading-label one can change. */
  predicate Settled(v: string) {
    && v != "" && '<' !in v && '[' !in v && '\n' !in v
    && (forall c :: c in v ==> Lower(c) != 't')
    && Trimmed(v)
  }

  /** No match of p starts anywhere in s. */
  predicate NoMatch(p: Pattern, s: string)
    requires ValidPattern(p)
  {
    forall q :: 0 <= q < |s| ==> MatchAt(p, s, q).None?
  }

  /**
   * Text that no rewrite touches is returned unchanged: no think block, no
   * bracketed block, no `thinking:` match, no tag, no leading label, no
   * three newlines in a row and no surrounding whitespace.
   */
  lemma PlainTextClean(v: string)
    requires NoMatch(ThinkBlock, v) && NoMatch(BracketBlock, v) && NoMatch(ThinkingLabel, v)
    requires TagFree(v) && LabelAt(v, 0).None? && NoTripleNewline(v) && Trimmed(v)
    ensures CleanResponse(v) == v
  {
    ReplaceKeepsUnmatched(ThinkBlock, v);
    ReplaceKeepsUnmatched(BracketBlock, v);
    ReplaceKeepsUnmatched(ThinkingLabel, v);
    TagStepFixesExactlyTagFree(v);
    NewlineStepFixesExactlyNormal(v);
    TrimFixesExactlyTrimmed(v);
    PipelineThrough(v, v, v, v, v, v, v, v);
  }

  /** Input whose first step leaves plain text is cleaned to that text. */
  lemma CleanToPlainAfterFirstStep(s: string, v: string)
    requires ReplaceAll(ThinkBlock, s) == v && Plain(v)
    ensures CleanResponse(s) == v
  {
    Untouched(BracketBlock, v);
    Untouched(ThinkingLabel, v);
    Untouched(AnyTag, v);
    Untouched(NewlineRun, v);
    TrimFixesExactlyTrimmed(v);
    PipelineThrough(s, v, v, v, v, v, v, v);
  }

  /** A think block and its content disappear, whatever the content holds apart from a `<`. */
  lemma ThinkBlockRemovedBeforePlainText(x: string, v: string)
    requires '<' !in x && Plain(v)
    ensures CleanResponse("<think>" + x + "</think>" + v) == v
  {
    var s := "<think>" + x + "</think>" + v;
    NoCloseInside(x, "</think>", v);
    DelimitedBlockRemoved("<think>", "</think>", "", x, v);
    assert "" + "<think>" + x + "</think>" + v == s;
    Untouched(ThinkBlock, v);
    CleanToPlainAfterFirstStep(s, v);
  }

  /** Whitespace in front of a non-space character is exactly what `trimStart` skips. */
  lemma {:induction false} SpaceRunOver(w: string, p: string, i: nat)
    requires i <= |w| && AllSpace(w) && (p == [] || !IsJsSpace(p[0]))
    ensures SpaceRun(w + p, i) == |w| - i
    decreases |w| - i
  {
    if i < |w| {
      assert (w + p)[i] == w[i];
      SpaceRunOver(w, p, i + 1);
    } else if p != [] {
      assert (w + p)[i] == p[0];
    }
  }

  lemma TrimStartAfterSpaces(w: string, p: string)
    requires AllSpace(w) && (p == [] || !IsJsSpace(p[0]))
    ensures TrimStart(w + p) == p
  {
    SpaceRunOver(w, p, 0);
    assert (w + p)[|w|..] == p;
  }

  /** Line 36 removes a leading label together with the whitespace after it. */
  lemma StripLabelThenSpaces(l: string, w: string, p: string)
    requires IsLabelWord(l) && AllSpace(w) && (p == [] || !IsJsSpace(p[0]))
    ensures StripLeadingLabel(l + (w + p)) == p
  {
    LabelWordAt(l, w + p);
    assert (l + (w + p))[|l|..] == w + p;
    TrimStartAfterSpaces(w, p);
  }

  /** The thinking step on `Thinking:<x>Answer: <p>` keeps only `Answer: <p>`. */
  lemma ThinkingStepKeepsAnswer(x: string, p: string)
    requires forall q :: 0 <= q < |x| ==> LabelAt(x + "Answer:" + (" " + p), q).None?
    requires forall c :: c in p ==> Lower(c) != 't'
    ensures ReplaceAll(ThinkingLabel, "Thinking:" + x + "Answer:" + (" " + p)) == "Answer:" + (" " + p)
  {
    var v := " " + p;
    ThinkingCollapsedToLabel("", "Thinking:", x, "Answer:", v);
    assert "" + "Thinking:" + x + "Answer:" + v == "Thinking:" + x + "Answer:" + v;
    Untouched(ThinkingLabel, v);
  }

  /**
   * A reasoning preamble introduced by `Thinking:` is dropped up to the
   * `Answer:` label, and the label and the space after it go too.
   */
  lemma ThinkingThenAnswer(x: string, p: string)
    requires '<' !in x && '[' !in x
    requires forall q :: 0 <= q < |x| ==> LabelAt(x + "Answer:" + (" " + p), q).None?
    requires Plain(p)
    ensures CleanResponse("Thinking:" + x + "Answer:" + (" " + p)) == p
  {
    var c := "Answer:" + (" " + p);
    var s := "Thinking:" + x + c;
    assert s == "Thinking:" + x + "Answer:" + (" " + p);
    assert '<' !in s && '[' !in s;
    ThinkingStepKeepsAnswer(x, p);
    assert '<' !in c;
    AnswerLabelStripped(p);
    CleanThroughLabelStep(s, c, p);
  }

  lemma AnswerLabelStripped(p: string)
    requires Plain(p)
    ensures StripLeadingLabel("Answer:" + (" " + p)) == p
  {
    StripLabelThenSpaces("Answer:", " ", p);
  }

  /** Input that only the label steps change, ending as plain text. */
  lemma CleanThroughLabelStep(s: string, c: string, p: string)
    requires '<' !in s && '[' !in s && '<' !in c
    requires ReplaceAll(ThinkingLabel, s) == c && StripLeadingLabel(c) == p
    requires p != "" && '\n' !in p && Trimmed(p)
    ensures CleanResponse(s) == p
  {
    Untouched(ThinkBlock, s);
    Untouched(BracketBlock, s);
    Untouched(AnyTag, c);
    Untouched(NewlineRun, p);
    TrimFixesExactlyTrimmed(p);
    PipelineThrough(s, s, s, c, c, p, p, p);
  }

  /** A leading `response:` and the space after it are dropped from otherwise settled text. */
  lemma ResponseLabelDropped(v: string)
    requires Settled(v)
    ensures CleanResponse("response:" + (" " + v)) == v
  {
    var s := "response:" + (" " + v);
    assert '<' !in s && '[' !in s;
    Untouched(ThinkingLabel, s);
    StripLabelThenSpaces("response:", " ", v);
    CleanThroughLabelStep(s, s, v);
  }

  /**
   * Cleaning is not idempotent: only one leading label goes per call, so a
   * doubled `response:` needs two calls.
   */
  lemma CleanNotIdempotent(p: string)
    requires Plain(p)
    ensures CleanResponse("response:" + (" " + ("response:" + (" " + p)))) == "response:" + (" " + p)
    ensures CleanResponse("response:" + (" " + p)) == p
    ensures var twice := "response:" + (" " + ("response:" + (" " + p)));
      CleanResponse(CleanResponse(twice)) != CleanResponse(twice)
  {
    var once := "response:" + (" " + p);
    ResponseLabelDropped(p);
    LabelledSettled(p);
    ResponseLabelDropped(once);
    assert |once| == |p| + 10;
  }

  lemma LabelledSettled(v: string)
    requires Settled(v)
    ensures Settled("response:" + (" " + v))
  {
    var s := "response:" + (" " + v);
    assert s[0] == 'r' && s[|s| - 1] == v[|v| - 1];
  }

  /** `k` newlines. */
  function Newlines(k: nat): (r: string)
    ensures |r| == k && forall i :: 0 <= i < k ==> r[i] == '\n'
  {
    seq(k, _ => '\n')
  }

  lemma {:induction false} NewlineRunOver(m: string, b: string, i: nat)
    requires i <= |m| && (forall j :: 0 <= j < |m| ==> m[j] == '\n')
    requires b == [] || b[0] != '\n'
    ensures NewlineRunLength(m + b, i) == |m| - i
    decreases |m| - i
  {
    if i < |m| {
      assert (m + b)[i] == m[i];
      NewlineRunOver(m, b, i + 1);
    } else if b != [] {
      assert (m + b)[i] == b[0];
    }
  }

  /** Line 39: a run of three or more newlines between newline-free text becomes a blank line. */
  lemma BlankLinesCollapsed(a: string, k: nat, b: string)
    requires k >= 3 && '\n' !in a && '\n' !in b
    ensures ReplaceAll(NewlineRun, a + Newlines(k) + b) == a + "\n\n" + b
  {
    var m := Newlines(k);
    assert a + m + b == a + (m + b);
    ReplaceAfterPlainPrefix(NewlineRun, a, m + b);
    if b != [] {
      assert b[0] in b;
    }
    NewlineRunOver(m, b, 0);
    ReplaceAfterLeadingHit(NewlineRun, m, b, "\n\n");
    Untouched(NewlineRun, b);
  }

  /** Input that only the newline step changes. */
  lemma CleanThroughNewlineStep(s: string, f: string)
    requires '<' !in s && '[' !in s && (forall c :: c in s ==> Lower(c) != 't')
    requires LabelAt(s, 0).None?
    requires ReplaceAll(NewlineRun, s) == f && f != "" && Trimmed(f)
    ensures CleanResponse(s) == f
  {
    Untouched(ThinkBlock, s);
    Untouched(BracketBlock, s);
    Untouched(ThinkingLabel, s);
    Untouched(AnyTag, s);
    TrimFixesExactlyTrimmed(f);
    PipelineThrough(s, s, s, s, s, s, f, f);
  }

  /**
   * Three or more newlines between two settled paragraphs (no `<`, `[`,
   * newline or letter t, no surrounding whitespace) end up as one blank
   * line, when the text does not open with a label.
   */
  lemma BlankLinesCleaned(a: string, k: nat, b: string)
    requires Settled(a) && Settled(b) && k >= 3
    requires LabelAt(a + Newlines(k) + b, 0).None?
    ensures CleanResponse(a + Newlines(k) + b) == a + "\n\n" + b
  {
    var s := a + Newlines(k) + b;
    var f := a + "\n\n" + b;
    BlankLinesCollapsed(a, k, b);
    assert f[0] == a[0] && f[|f| - 1] == b[|b| - 1];
    CleanThroughNewlineStep(s, f);
  }

  /** `"a\n\n\n\nb"` cleans to `"a\n\nb"`. */
  lemma BlankLinesExample(s: string)
    requires s == "a\n\n\n\nb"
    ensures CleanResponse(s) == "a\n\nb"
  {
    BlankLinesInstance(s, "a", "b");
  }

  // The example with its paragraphs as parameters, so the cleaner is not unfolded on a literal.
  lemma BlankLinesInstance(s: string, a: string, b: string)
    requires a == "a" && b == "b" && s == a + Newlines(4) + b
    ensures CleanResponse(s) == a + "\n\n" + b
  {
    assert LabelAt(s, 0).None?;
    BlankLinesCleaned(a, 4, b);
  }
}
