/**
 * Character classes, pattern tests and the "only deletes characters"
 * relation shared by the response cleaner and the prompt builder.
 *
 * The JavaScript regular expressions modelled here are written without the
 * `u` flag and their letters are all ASCII.  Under that flag combination,
 * `/i` canonicalises a character by upper-casing it and never maps a
 * character at or above U+0080 onto an ASCII one, so comparing with `Lower`
 * below is exactly the engine's case-insensitive comparison for these
 * patterns.
 */
module Text {

  datatype Option<T> = None | Some(value: T)

  /** ASCII lower-casing; every other character is left alone. */
  function Lower(c: char): (r: char)
    ensures 'A' <= c <= 'Z' ==> 'a' <= r <= 'z' && r as int == c as int + 32
    ensures !('A' <= c <= 'Z') ==> r == c
  {
    if 'A' <= c <= 'Z' then (c as int + 32) as char else c
  }

  predicate IsAsciiLetter(c: char) {
    'a' <= c <= 'z' || 'A' <= c <= 'Z'
  }

  /** The characters `\w` and `\b` treat as word characters: `[A-Za-z0-9_]`. */
  predicate IsWordChar(c: char) {
    IsAsciiLetter(c) || '0' <= c <= '9' || c == '_'
  }

  /**
   * JavaScript's WhiteSpace and LineTerminator characters: the set matched
   * by `\s` and removed by `String.prototype.trim`.
   */
  predicate IsJsSpace(c: char) {
    || c == '\t' || c == '\n' || c == '\U{000B}' || c == '\U{000C}' || c == '\r'
    || c == ' ' || c == '\U{00A0}' || c == '\U{1680}'
    || ('\U{2000}' <= c <= '\U{200A}')
    || c == '\U{2028}' || c == '\U{2029}' || c == '\U{202F}' || c == '\U{205F}'
    || c == '\U{3000}' || c == '\U{FEFF}'
  }

  /** Two characters are equal, or equal up to ASCII case when `ci` holds. */
  predicate SameChar(a: char, b: char, ci: bool) {
    if ci then Lower(a) == Lower(b) else a == b
  }

  /** Every character lower-cased. */
  function LowerAll(s: string): (r: string)
    ensures |r| == |s| && forall i :: 0 <= i < |s| ==> r[i] == Lower(s[i])
  {
    seq(|s|, i requires 0 <= i < |s| => Lower(s[i]))
  }

  /** `s` as the engine compares it: lower-cased when `ci` holds. */
  function Fold(s: string, ci: bool): string {
    if ci then LowerAll(s) else s
  }

  /** `pat` occurs in `s` starting at index `p` (case-insensitively when `ci`). */
  predicate MatchesAt(s: string, p: nat, pat: string, ci: bool) {
    p + |pat| <= |s| && MatchesFrom(s, p, pat, 0, ci)
  }

  /** The characters of `pat` from index `k` on agree with those of `s` from `p + k` on. */
  predicate MatchesFrom(s: string, p: nat, pat: string, k: nat, ci: bool)
    requires p + |pat| <= |s| && k <= |pat|
    decreases |s| - (p + k)
  {
    k == |pat| || (SameChar(s[p + k], pat[k], ci) && MatchesFrom(s, p, pat, k + 1, ci))
  }

  lemma {:induction false} MatchesFromChars(s: string, p: nat, pat: string, k: nat, ci: bool)
    requires p + |pat| <= |s| && k <= |pat|
    ensures MatchesFrom(s, p, pat, k, ci) <==> forall i :: k <= i < |pat| ==> SameChar(s[p + i], pat[i], ci)
    decreases |pat| - k
  {
    if k < |pat| {
      MatchesFromChars(s, p, pat, k + 1, ci);
    }
  }

  /** An occurrence is a run of characters that each agree with the pattern. */
  lemma MatchesAtChars(s: string, p: nat, pat: string, ci: bool)
    ensures MatchesAt(s, p, pat, ci) <==>
      p + |pat| <= |s| && forall i :: 0 <= i < |pat| ==> SameChar(s[p + i], pat[i], ci)
  {
    if p + |pat| <= |s| {
      MatchesFromChars(s, p, pat, 0, ci);
    }
  }

  /** An occurrence begins with the pattern's first character. */
  lemma MatchesAtHead(s: string, p: nat, pat: string, ci: bool)
    requires pat != [] && p < |s|
    ensures MatchesAt(s, p, pat, ci) ==> SameChar(s[p], pat[0], ci)
  {
  }

  /** A case-sensitive occurrence is exactly an equal slice. */
  lemma MatchesAtSlice(s: string, p: nat, pat: string)
    ensures MatchesAt(s, p, pat, false) <==> p + |pat| <= |s| && s[p..p + |pat|] == pat
  {
    MatchesAtChars(s, p, pat, false);
    if p + |pat| <= |s| && MatchesAt(s, p, pat, false) {
      forall i | 0 <= i < |pat|
        ensures s[p..p + |pat|][i] == pat[i]
      {
        assert SameChar(s[p + i], pat[i], false);
      }
    }
    if p + |pat| <= |s| && s[p..p + |pat|] == pat {
      forall i | 0 <= i < |pat|
        ensures SameChar(s[p + i], pat[i], false)
      {
        assert s[p..p + |pat|][i] == s[p + i];
      }
    }
  }

  /** Occurrences depend only on the characters they cover. */
  lemma MatchesAtSame(s: string, p: nat, t: string, q: nat, pat: string, ci: bool)
    requires p + |pat| <= |s| && q + |pat| <= |t| && s[p..p + |pat|] == t[q..q + |pat|]
    ensures MatchesAt(s, p, pat, ci) == MatchesAt(t, q, pat, ci)
  {
    MatchesAtChars(s, p, pat, ci);
    MatchesAtChars(t, q, pat, ci);
    forall i | 0 <= i < |pat|
      ensures SameChar(s[p + i], pat[i], ci) == SameChar(t[q + i], pat[i], ci)
    {
      assert s[p..p + |pat|][i] == t[q..q + |pat|][i];
    }
  }

  /** Dropping a prefix that lies before the occurrence does not change it. */
  lemma MatchesAtShift(u: string, v: string, j: nat, pat: string, ci: bool)
    ensures MatchesAt(u + v, |u| + j, pat, ci) == MatchesAt(v, j, pat, ci)
  {
    if j + |pat| <= |v| {
      assert (u + v)[|u| + j..|u| + j + |pat|] == v[j..j + |pat|];
      MatchesAtSame(u + v, |u| + j, v, j, pat, ci);
    }
  }

  /** An occurrence lying wholly inside a prefix does not look beyond it. */
  lemma MatchesAtPrefix(a: string, b: string, q: nat, pat: string, ci: bool)
    requires q + |pat| <= |a|
    ensures MatchesAt(a + b, q, pat, ci) == MatchesAt(a, q, pat, ci)
  {
    assert (a + b)[q..q + |pat|] == a[q..q + |pat|];
    MatchesAtSame(a + b, q, a, q, pat, ci);
  }

  /**
   * Index of the first occurrence of `pat` in `s` at or after `from`: the
   * lazy `[\s\S]*?` followed by a literal.
   */
  function IndexOf(s: string, pat: string, from: nat, ci: bool): (r: Option<nat>)
    requires from <= |s|
    ensures r.Some? ==> from <= r.value && MatchesAt(s, r.value, pat, ci)
    decreases |s| - from
  {
    if MatchesAt(s, from, pat, ci) then Some(from)
    else if from == |s| then None
    else IndexOf(s, pat, from + 1, ci)
  }

  /** `IndexOf` finds the leftmost occurrence, and finds none only when there is none. */
  lemma {:induction false} IndexOfLeftmost(s: string, pat: string, from: nat, ci: bool)
    requires from <= |s|
    ensures IndexOf(s, pat, from, ci).Some? ==>
      forall q :: from <= q < IndexOf(s, pat, from, ci).value ==> !MatchesAt(s, q, pat, ci)
    ensures IndexOf(s, pat, from, ci).None? ==> forall q :: from <= q <= |s| ==> !MatchesAt(s, q, pat, ci)
    decreases |s| - from
  {
    if !MatchesAt(s, from, pat, ci) && from < |s| {
      IndexOfLeftmost(s, pat, from + 1, ci);
    }
  }

  /** An occurrence with none before it (from `from` on) is the one `IndexOf` finds. */
  lemma {:induction false} IndexOfFirst(s: string, pat: string, from: nat, k: nat, ci: bool)
    requires from <= k <= |s| && MatchesAt(s, k, pat, ci)
    requires forall q :: from <= q < k ==> !MatchesAt(s, q, pat, ci)
    ensures IndexOf(s, pat, from, ci) == Some(k)
    decreases k - from
  {
    if from < k {
      IndexOfFirst(s, pat, from + 1, k, ci);
    }
  }

  /** An optional index moved `n` places to the right. */
  function Offset(o: Option<nat>, n: nat): Option<nat> {
    match o
    case None => None
    case Some(k) => Some(n + k)
  }

  /** Dropping a prefix that lies before the search does not change what it finds. */
  lemma {:induction false} IndexOfShift(u: string, v: string, j: nat, pat: string, ci: bool)
    requires j <= |v|
    ensures IndexOf(u + v, pat, |u| + j, ci) == Offset(IndexOf(v, pat, j, ci), |u|)
    decreases |v| - j
  {
    MatchesAtShift(u, v, j, pat, ci);
    var a := IndexOf(u + v, pat, |u| + j, ci);
    var b := IndexOf(v, pat, j, ci);
    if MatchesAt(v, j, pat, ci) {
      assert IndexOf(v, pat, j, ci) == Some(j);
      assert IndexOf(u + v, pat, |u| + j, ci) == Some(|u| + j);
    } else if j == |v| {
      assert IndexOf(v, pat, j, ci) == None;
      assert IndexOf(u + v, pat, |u| + j, ci) == None;
    } else {
      IndexOfShift(u, v, j + 1, pat, ci);
      assert |u| + j + 1 == |u| + (j + 1);
      assert IndexOf(v, pat, j, ci) == IndexOf(v, pat, j + 1, ci);
      assert IndexOf(u + v, pat, |u| + j, ci) == IndexOf(u + v, pat, |u| + (j + 1), ci);
    }
    assert a == Offset(b, |u|);
  }

  /** `a` occurs at the start of `a + b`. */
  lemma MatchesOwnPrefix(a: string, b: string, ci: bool)
    ensures MatchesAt(a + b, 0, a, ci)
  {
    MatchesAtChars(a + b, 0, a, ci);
    forall i | 0 <= i < |a|
      ensures SameChar((a + b)[0 + i], a[i], ci)
    {
      assert (a + b)[0 + i] == a[i];
    }
  }

  /** Every character of `s` is JavaScript whitespace. */
  predicate AllSpace(s: string) {
    forall i :: 0 <= i < |s| ==> IsJsSpace(s[i])
  }

  /** Length of the run of whitespace starting at index `i`. */
  function SpaceRun(s: string, i: nat): (n: nat)
    requires i <= |s|
    ensures i + n <= |s| && AllSpace(s[i..i + n])
    ensures i + n == |s| || !IsJsSpace(s[i + n])
    decreases |s| - i
  {
    if i < |s| && IsJsSpace(s[i]) then 1 + SpaceRun(s, i + 1) else 0
  }

  /** Concatenation regroups freely. */
  lemma ConcatAssoc(a: string, b: string, c: string)
    ensures a + (b + c) == a + b + c
  {
  }

  /** `a` is obtained from `b` by deleting characters. */
  predicate IsSubseq(a: string, b: string)
    decreases |b|
  {
    |a| == 0 || (|b| > 0 && ((a[0] == b[0] && IsSubseq(a[1..], b[1..])) || IsSubseq(a, b[1..])))
  }

  lemma {:induction false} SubseqRefl(a: string)
    ensures IsSubseq(a, a)
    decreases |a|
  {
    if |a| > 0 {
      SubseqRefl(a[1..]);
    }
  }

  lemma {:induction false} SubseqLength(a: string, b: string)
    requires IsSubseq(a, b)
    ensures |a| <= |b|
    decreases |b|
  {
    if |a| > 0 {
      if a[0] == b[0] && IsSubseq(a[1..], b[1..]) {
        SubseqLength(a[1..], b[1..]);
      } else {
        SubseqLength(a, b[1..]);
      }
    }
  }

  /** Every character kept was in the original. */
  lemma {:induction false} SubseqChars(a: string, b: string)
    requires IsSubseq(a, b)
    ensures forall c :: c in a ==> c in b
    decreases |b|
  {
    if |a| > 0 {
      if a[0] == b[0] && IsSubseq(a[1..], b[1..]) {
        SubseqChars(a[1..], b[1..]);
        assert a == [a[0]] + a[1..];
        assert b == [b[0]] + b[1..];
      } else {
        SubseqChars(a, b[1..]);
        assert b == [b[0]] + b[1..];
      }
    }
  }

  lemma {:induction false} SubseqTrans(a: string, b: string, c: string)
    requires IsSubseq(a, b) && IsSubseq(b, c)
    ensures IsSubseq(a, c)
    decreases |c|
  {
    if |a| > 0 {
      SubseqLength(a, b);
      SubseqLength(b, c);
      if b[0] == c[0] && IsSubseq(b[1..], c[1..]) {
        if a[0] == b[0] && IsSubseq(a[1..], b[1..]) {
          SubseqTrans(a[1..], b[1..], c[1..]);
        } else {
          SubseqTrans(a, b[1..], c[1..]);
        }
      } else {
        SubseqTrans(a, b, c[1..]);
      }
    }
  }

  /** Keeping `x` in front of two related strings keeps them related. */
  lemma SubseqCons(x: char, a: string, b: string)
    requires IsSubseq(a, b)
    ensures IsSubseq([x] + a, [x] + b)
  {
    assert ([x] + a)[1..] == a;
    assert ([x] + b)[1..] == b;
  }

  lemma {:induction false} SubseqPrepend(u: string, a: string, b: string)
    requires IsSubseq(a, b)
    ensures IsSubseq(u + a, u + b)
    decreases |u|
  {
    if |u| == 0 {
      assert u + a == a && u + b == b;
    } else {
      SubseqPrepend(u[1..], a, b);
      SubseqCons(u[0], u[1..] + a, u[1..] + b);
      assert u + a == [u[0]] + (u[1..] + a);
      assert u + b == [u[0]] + (u[1..] + b);
    }
  }

  /** Deleting a prefix of `b` leaves a subsequence of `b`. */
  lemma {:induction false} SubseqDropPrefix(a: string, b: string, n: nat)
    requires n <= |b| && IsSubseq(a, b[n..])
    ensures IsSubseq(a, b)
    decreases n
  {
    if n > 0 {
      assert b[1..][n - 1..] == b[n..];
      SubseqDropPrefix(a, b[1..], n - 1);
      if |a| > 0 {
        assert IsSubseq(a, b[1..]);
      }
    }
  }

  lemma {:induction false} SubseqTakePrefix(b: string, n: nat)
    requires n <= |b|
    ensures IsSubseq(b[..n], b)
    decreases n
  {
    if n > 0 {
      SubseqTakePrefix(b[1..], n - 1);
      assert b[1..][..n - 1] == b[..n][1..];
    }
  }

  lemma SubseqSlice(b: string, i: nat, j: nat)
    requires i <= j <= |b|
    ensures IsSubseq(b[i..j], b)
  {
    SubseqTakePrefix(b[i..], j - i);
    assert b[i..][..j - i] == b[i..j];
    SubseqDropPrefix(b[i..j], b, i);
  }

  /** Subsequences split along a split of the original. */
  lemma {:induction false} SubseqConcat(a1: string, b1: string, a2: string, b2: string)
    requires IsSubseq(a1, b1) && IsSubseq(a2, b2)
    ensures IsSubseq(a1 + a2, b1 + b2)
    decreases |b1|
  {
    if |b1| == 0 {
      assert |a1| == 0 by { SubseqLength(a1, b1); }
      assert a1 + a2 == a2 && b1 + b2 == b2;
    } else if |a1| > 0 && a1[0] == b1[0] && IsSubseq(a1[1..], b1[1..]) {
      SubseqConcat(a1[1..], b1[1..], a2, b2);
      assert a1 + a2 == [a1[0]] + (a1[1..] + a2);
      assert b1 + b2 == [b1[0]] + (b1[1..] + b2);
      SubseqCons(a1[0], a1[1..] + a2, b1[1..] + b2);
    } else {
      assert IsSubseq(a1, b1[1..]);
      SubseqConcat(a1, b1[1..], a2, b2);
      assert (b1 + b2)[1..] == b1[1..] + b2;
      SubseqDropPrefix(a1 + a2, b1 + b2, 1);
    }
  }
}
