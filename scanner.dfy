/**
 * How a global regular-expression replacement walks a string.
 *
 * A table `t` records, for every start index q of `s`, the match the engine
 * finds when it starts at q (if any): the index just past the match and the
 * text that replaces it.  `Scan` visits `s` from left to right: at a
 * recorded match it emits the replacement and resumes after it, otherwise
 * it keeps one character and moves on.  This is how
 * `String.prototype.replace` with a `g` regular expression and a string
 * replacement proceeds when no match is empty.
 */
module Scanner {
  import opened Text

  /** A match: the index just past it and the text that replaces it. */
  datatype Hit = Hit(end: nat, replacement: string)

  /** One entry per index, and every recorded match is non-empty and inside `s`. */
  predicate Advancing(s: string, t: seq<Option<Hit>>) {
    |t| == |s| && forall q :: 0 <= q < |t| && t[q].Some? ==> q < t[q].value.end <= |s|
  }

  /** Every recorded match is replaced by a subsequence of the text it covers. */
  predicate Deleting(s: string, t: seq<Option<Hit>>)
    requires Advancing(s, t)
  {
    forall q :: 0 <= q < |t| && t[q].Some? ==> IsSubseq(t[q].value.replacement, s[q..t[q].value.end])
  }

  /** The replacement applied to the suffix of `s` that starts at `i`. */
  function Scan(s: string, t: seq<Option<Hit>>, i: nat): string
    requires Advancing(s, t) && i <= |s|
    decreases |s| - i
  {
    if i == |s| then ""
    else match t[i]
      case Some(h) => h.replacement + Scan(s, t, h.end)
      case None => [s[i]] + Scan(s, t, i + 1)
  }

  /** When every match is replaced by part of its own text, the result only deletes characters. */
  lemma {:induction false} ScanDeletes(s: string, t: seq<Option<Hit>>, i: nat)
    requires Advancing(s, t) && Deleting(s, t) && i <= |s|
    ensures IsSubseq(Scan(s, t, i), s[i..])
    decreases |s| - i
  {
    if i < |s| {
      match t[i]
      case Some(h) =>
        ScanDeletes(s, t, h.end);
        SubseqConcat(h.replacement, s[i..h.end], Scan(s, t, h.end), s[h.end..]);
        assert s[i..h.end] + s[h.end..] == s[i..];
      case None =>
        ScanDeletes(s, t, i + 1);
        SubseqCons(s[i], Scan(s, t, i + 1), s[i + 1..]);
        assert [s[i]] + s[i + 1..] == s[i..];
    }
  }

  /** Text in which no match starts is copied unchanged. */
  lemma {:induction false} ScanKeepsUnmatched(s: string, t: seq<Option<Hit>>, a: nat, b: nat)
    requires Advancing(s, t) && a <= b <= |s|
    requires forall q :: a <= q < b ==> t[q].None?
    ensures Scan(s, t, a) == s[a..b] + Scan(s, t, b)
    decreases b - a
  {
    if a < b {
      ScanKeepsUnmatched(s, t, a + 1, b);
      calc {
        Scan(s, t, a);
        { assert t[a].None?; }
        [s[a]] + Scan(s, t, a + 1);
        [s[a]] + (s[a + 1..b] + Scan(s, t, b));
        ([s[a]] + s[a + 1..b]) + Scan(s, t, b);
        { assert [s[a]] + s[a + 1..b] == s[a..b]; }
        s[a..b] + Scan(s, t, b);
      }
    }
  }

  /** A recorded match moved `n` places to the right. */
  function Moved(o: Option<Hit>, n: nat): Option<Hit> {
    match o
    case None => None
    case Some(h) => Some(Hit(n + h.end, h.replacement))
  }

  /** Behind the prefix `u`, the table of `u + v` is the table of `v`, moved. */
  predicate ShiftedTable(u: string, v: string, t: seq<Option<Hit>>, tv: seq<Option<Hit>>) {
    && Advancing(u + v, t) && Advancing(v, tv)
    && forall k :: 0 <= k < |tv| ==> t[|u| + k] == Moved(tv[k], |u|)
  }

  /** Once the scan has passed `u`, it proceeds as it would on `v` alone. */
  lemma {:induction false} ScanShift(u: string, v: string, t: seq<Option<Hit>>, tv: seq<Option<Hit>>, j: nat)
    requires ShiftedTable(u, v, t, tv) && j <= |v|
    ensures Scan(u + v, t, |u| + j) == Scan(v, tv, j)
    decreases |v| - j
  {
    if j < |v| {
      assert t[|u| + j] == Moved(tv[j], |u|);
      match tv[j]
      case Some(h) =>
        calc {
          Scan(u + v, t, |u| + j);
          h.replacement + Scan(u + v, t, |u| + h.end);
          { ScanShift(u, v, t, tv, h.end); }
          h.replacement + Scan(v, tv, h.end);
        }
      case None =>
        calc {
          Scan(u + v, t, |u| + j);
          { assert (u + v)[|u| + j] == v[j]; assert |u| + j + 1 == |u| + (j + 1); }
          [v[j]] + Scan(u + v, t, |u| + (j + 1));
          { ScanShift(u, v, t, tv, j + 1); }
          [v[j]] + Scan(v, tv, j + 1);
        }
    }
  }
}
