/**
 * The prompt templates of components/promptBuilder.js: a fixed system
 * preamble, a blank line, then a task-specific body.  Two regular
 * expressions pick languages out of the instruction:
 *
 *   /\b(JavaScript|Python|Java|C\+\+|C#|Ruby|Go|Rust|PHP|TypeScript|Swift)\b/i
 *   /\bto\s+(JavaScript|Python|Java|C\+\+|C#|Ruby|Go|Rust|PHP|TypeScript|Swift)\b/i
 *
 * Both are used with `String.prototype.match` and no `g` flag, so the first
 * match wins: the leftmost start index, and at that index the alternatives
 * in the order listed.
 */
module PromptBuilder {
  import opened Text
  import opened Request

  /** The alternatives of both patterns, in the order the engine tries them. */
  const Languages: seq<string> :=
    ["JavaScript", "Python", "Java", "C++", "C#", "Ruby", "Go", "Rust", "PHP", "TypeScript", "Swift"]

  /** `\b` at index `i`: exactly one of the characters on either side is a word character. */
  predicate Boundary(s: string, i: nat)
    requires i <= |s|
  {
    (i > 0 && IsWordChar(s[i - 1])) != (i < |s| && IsWordChar(s[i]))
  }

  /** Alternative `j` matches at `q`, case-insensitively, and a word boundary follows it. */
  predicate AltMatch(s: string, q: nat, j: nat)
    requires j < |Languages|
  {
    MatchesAt(s, q, Languages[j], true) && Boundary(s, q + |Languages[j]|)
  }

  /** The first alternative from the `j`-th on that matches at `q`. */
  function FirstAlt(s: string, q: nat, j: nat): (r: Option<nat>)
    requires j <= |Languages|
    ensures r.Some? ==> j <= r.value < |Languages| && AltMatch(s, q, r.value)
    decreases |s| + (|Languages| - j)
  {
    if j == |Languages| then None
    else if AltMatch(s, q, j) then Some(j)
    else FirstAlt(s, q, j + 1)
  }

  /** Where the alternatives `FirstAlt` looked at end: at the one it took, or after the last. */
  function AltsTried(r: Option<nat>): nat {
    if r.Some? then r.value else |Languages|
  }

  /** `FirstAlt` skips only alternatives that do not match, and fails only when none does. */
  lemma {:induction false} FirstAltFirst(s: string, q: nat, j: nat)
    requires j <= |Languages|
    ensures forall k: nat :: j <= k < AltsTried(FirstAlt(s, q, j)) ==> !AltMatch(s, q, k)
    decreases |Languages| - j
  {
    if j < |Languages| && !AltMatch(s, q, j) {
      FirstAltFirst(s, q, j + 1);
    }
  }

  // ---------------------------------------------------------------------
  // The language named in the instruction (components/promptBuilder.js:21-25)
  // ---------------------------------------------------------------------

  /** `\b(alternatives)\b` matches at `p` through alternative `j`. */
  predicate WordAt(s: string, p: nat, j: nat)
    requires j < |Languages|
  {
    p <= |s| && Boundary(s, p) && AltMatch(s, p, j)
  }

  /** The match the engine reports: the leftmost start, and there the first alternative. */
  ghost predicate FirstWord(s: string, p: nat, j: nat)
    requires j < |Languages|
  {
    && WordAt(s, p, j)
    && (forall q: nat, k: nat :: q < p && k < |Languages| ==> !WordAt(s, q, k))
    && (forall k: nat :: k < j ==> !WordAt(s, p, k))
  }

  /** No alternative matches anywhere. */
  ghost predicate NoWord(s: string) {
    forall p: nat, k: nat :: k < |Languages| ==> !WordAt(s, p, k)
  }

  /** A match: where it starts and which alternative it took. */
  datatype Found = Found(start: nat, alt: nat)

  /** The alternative the engine takes when it tries index `p`, if any. */
  function WordMatchAt(s: string, p: nat): (r: Option<nat>)
    requires p <= |s|
    ensures r.Some? ==> r.value < |Languages| && WordAt(s, p, r.value)
  {
    if Boundary(s, p) then FirstAlt(s, p, 0) else None
  }

  /** `WordMatchAt` takes the first alternative that matches at `p`, and none only when none does. */
  lemma WordMatchAtFirst(s: string, p: nat)
    requires p <= |s|
    ensures WordMatchAt(s, p).Some? ==> forall k: nat :: k < WordMatchAt(s, p).value ==> !WordAt(s, p, k)
    ensures WordMatchAt(s, p).None? ==> forall k: nat :: k < |Languages| ==> !WordAt(s, p, k)
  {
    FirstAltFirst(s, p, 0);
  }

  /** The engine's search from index `from` on. */
  function FindWord(s: string, from: nat): (r: Option<Found>)
    requires from <= |s|
    ensures r.Some? ==> from <= r.value.start && r.value.alt < |Languages| && WordAt(s, r.value.start, r.value.alt)
    decreases |s| - from
  {
    var here := WordMatchAt(s, from);
    if here.Some? then Some(Found(from, here.value))
    else if from == |s| then None
    else FindWord(s, from + 1)
  }

  /** What `FindWord` finds is the engine's first match, and it finds none only when there is none. */
  lemma {:induction false} FindWordFirst(s: string, from: nat)
    requires from <= |s|
    ensures FindWord(s, from).Some? ==>
      var f := FindWord(s, from).value;
      && (forall q: nat, k: nat :: from <= q < f.start && k < |Languages| ==> !WordAt(s, q, k))
      && (forall k: nat :: k < f.alt ==> !WordAt(s, f.start, k))
    ensures FindWord(s, from).None? ==> forall q: nat, k: nat :: from <= q && k < |Languages| ==> !WordAt(s, q, k)
    decreases |s| - from
  {
    WordMatchAtFirst(s, from);
    if WordMatchAt(s, from).None? && from < |s| {
      FindWordFirst(s, from + 1);
      var r := FindWord(s, from + 1);
      assert FindWord(s, from) == r;
      if r.Some? {
        forall q: nat, k: nat | from <= q < r.value.start && k < |Languages|
          ensures !WordAt(s, q, k)
        {
          if q == from {
            assert !WordAt(s, from, k);
          }
        }
      }
    }
  }

  /** `languageMatch[0]`, or the default `'JavaScript'`. */
  function DetectLanguage(instruction: string): (language: string)
  {
    match FindWord(instruction, 0)
    case Some(f) => instruction[f.start..f.start + |Languages[f.alt]|]
    case None => "JavaScript"
  }

  /**
   * The detected language is the text of the engine's first whole-word
   * match, in the instruction's own casing, and `JavaScript` when no
   * listed language occurs as a whole word.
   */
  lemma DetectLanguageSpec(s: string)
    ensures NoWord(s) ==> DetectLanguage(s) == "JavaScript"
    ensures !NoWord(s) ==> exists p: nat, j: nat :: j < |Languages| && FirstWord(s, p, j)
    ensures forall p: nat, j: nat :: j < |Languages| && FirstWord(s, p, j) ==>
      p + |Languages[j]| <= |s| && DetectLanguage(s) == s[p..p + |Languages[j]|]
  {
    FindWordFirst(s, 0);
    match FindWord(s, 0)
    case None =>
      assert NoWord(s);
    case Some(f) =>
      assert FirstWord(s, f.start, f.alt);
      assert DetectLanguage(s) == s[f.start..f.start + |Languages[f.alt]|];
      forall p: nat, j: nat | j < |Languages| && FirstWord(s, p, j)
        ensures p + |Languages[j]| <= |s| && DetectLanguage(s) == s[p..p + |Languages[j]|]
      {
        assert WordAt(s, p, j) && WordAt(s, f.start, f.alt);
        assert p == f.start && j == f.alt;
      }
  }

  /** The detected text spells the alternative it matched, up to ASCII case. */
  lemma DetectedSpellsLanguage(s: string, p: nat, j: nat)
    requires j < |Languages| && FirstWord(s, p, j)
    ensures Fold(DetectLanguage(s), true) == Fold(Languages[j], true)
  {
    DetectLanguageSpec(s);
    var w := DetectLanguage(s);
    MatchesAtChars(s, p, Languages[j], true);
    assert |w| == |Languages[j]|;
    forall i: nat | 0 <= i < |w|
      ensures Fold(w, true)[i] == Fold(Languages[j], true)[i]
    {
      assert w[i] == s[p + i];
      assert SameChar(s[p + i], Languages[j][i], true);
    }
  }

  /**
   * The trailing `\b` after `C++` or `C#` holds only when a word character
   * follows: the `+` and `#` are not word characters.
   */
  lemma SymbolLanguagesNeedWordAfter(s: string, q: nat, j: nat)
    requires j == 3 || j == 4
    ensures AltMatch(s, q, j) <==> MatchesAt(s, q, Languages[j], true) && q + |Languages[j]| < |s| && IsWordChar(s[q + |Languages[j]|])
  {
    var n := |Languages[j]|;
    if MatchesAt(s, q, Languages[j], true) {
      MatchesAtChars(s, q, Languages[j], true);
      assert SameChar(s[q + n - 1], Languages[j][n - 1], true);
      assert !IsWordChar(s[q + n - 1]);
    }
  }

  /** A start index where no alternative matches at a word boundary passes the search on to the next. */
  lemma FindWordStep(s: string, from: nat)
    requires from < |s| && WordMatchAt(s, from).None?
    ensures FindWord(s, from) == FindWord(s, from + 1)
  {
  }

  /** "write in C++": the only language word is not followed by a word character, so the default applies. */
  lemma TrailingCppExample(s: string)
    requires s == "write in C++"
    ensures DetectLanguage(s) == "JavaScript"
  {
    CppFrom0(s);
    CppFrom2(s);
    CppFrom4(s);
    CppFrom6(s);
    CppFrom8(s);
  }

  // The search over "write in C++", a few start indices at a time.
  lemma CppFrom0(s: string)
    requires s == "write in C++"
    ensures FindWord(s, 0) == FindWord(s, 2)
  {
    FindWordStep(s, 0);
    FindWordStep(s, 1);
  }

  lemma CppFrom2(s: string)
    requires s == "write in C++"
    ensures FindWord(s, 2) == FindWord(s, 4)
  {
    FindWordStep(s, 2);
    FindWordStep(s, 3);
  }

  lemma CppFrom4(s: string)
    requires s == "write in C++"
    ensures FindWord(s, 4) == FindWord(s, 6)
  {
    FindWordStep(s, 4);
    FindWordStep(s, 5);
  }

  lemma CppFrom6(s: string)
    requires s == "write in C++"
    ensures FindWord(s, 6) == FindWord(s, 8)
  {
    FindWordStep(s, 6);
    FindWordStep(s, 7);
  }

  lemma CppFrom8(s: string)
    requires s == "write in C++"
    ensures FindWord(s, 8) == None
  {
    FindWordStep(s, 8);
    FindWordStep(s, 9);
    FindWordStep(s, 10);
    FindWordStep(s, 11);
  }

  // ---------------------------------------------------------------------
  // The target language of a conversion (components/promptBuilder.js:86-90)
  // ---------------------------------------------------------------------

  /**
   * `\bto\s+(alternatives)\b` matches at `p` with a whitespace run of `m`
   * characters and alternative `j`.
   */
  predicate TargetAt(s: string, p: nat, m: nat, j: nat)
    requires j < |Languages|
  {
    && p + 2 + m <= |s| && 1 <= m
    && Boundary(s, p) && ToAt(s, p)
    && SpacesFrom(s, p + 2, m) && AltMatch(s, p + 2 + m, j)
  }

  /** `to`, in any case, at index `p`. */
  predicate ToAt(s: string, p: nat) {
    p + 2 <= |s| && SameChar(s[p], 't', true) && SameChar(s[p + 1], 'o', true)
  }

  /** The `m` characters from index `i` on are all whitespace (`\s`). */
  predicate SpacesFrom(s: string, i: nat, m: nat)
    requires i + m <= |s|
  {
    forall t: nat :: i <= t < i + m ==> IsJsSpace(s[t])
  }

  /**
   * The match the engine reports: the leftmost start; there the greedy `\s+`
   * tries the longest run first, and for each run the alternatives in order.
   */
  ghost predicate FirstTarget(s: string, p: nat, m: nat, j: nat)
    requires j < |Languages|
  {
    && TargetAt(s, p, m, j)
    && (forall q: nat, m': nat, k: nat :: q < p && k < |Languages| ==> !TargetAt(s, q, m', k))
    && (forall m': nat, k: nat :: k < |Languages| && TargetAt(s, p, m', k) ==> m' < m || (m' == m && j <= k))
  }

  ghost predicate NoTarget(s: string) {
    forall p: nat, m: nat, k: nat :: k < |Languages| ==> !TargetAt(s, p, m, k)
  }

  /**
   * Only the whole whitespace run can precede a language: every alternative
   * starts with a letter, so giving back whitespace never helps.
   */
  lemma {:induction false} TargetGapIsWholeRun(s: string, p: nat, m: nat, j: nat)
    requires j < |Languages| && TargetAt(s, p, m, j)
    ensures m == SpaceRun(s, p + 2)
  {
    var q := p + 2 + m;
    LanguageStartsWithLetter(j);
    MatchesAtChars(s, q, Languages[j], true);
    assert SameChar(s[q], Languages[j][0], true);
    SpaceRunStops(s, p + 2, m);
  }

  /** A whitespace run of `m` characters that ends at a non-space is the whole run. */
  lemma {:induction false} SpaceRunStops(s: string, i: nat, m: nat)
    requires i + m <= |s| && SpacesFrom(s, i, m) && (i + m == |s| || !IsJsSpace(s[i + m]))
    ensures SpaceRun(s, i) == m
    decreases m
  {
    if m > 0 {
      assert IsJsSpace(s[i]);
      SpaceRunStops(s, i + 1, m - 1);
    }
  }

  /** The run `SpaceRun` measures is whitespace throughout. */
  lemma SpaceRunSpaces(s: string, i: nat)
    requires i <= |s|
    ensures SpacesFrom(s, i, SpaceRun(s, i))
  {
    var n := SpaceRun(s, i);
    forall t: nat | i <= t < i + n
      ensures IsJsSpace(s[t])
    {
      assert s[t] == s[i..i + n][t - i];
    }
  }

  /** Every alternative is at least two characters long and starts with an ASCII letter. */
  lemma LanguageStartsWithLetter(j: nat)
    requires j < |Languages|
    ensures |Languages[j]| >= 2 && IsAsciiLetter(Languages[j][0])
  {
  }

  /** A match of the target pattern: where `to` starts, the length of the whitespace run, the alternative. */
  datatype TargetFound = TargetFound(at: nat, gap: nat, alt: nat)

  /** What the engine finds when it starts at `p`. */
  function TargetMatchAt(s: string, p: nat): (r: Option<TargetFound>)
    requires p <= |s|
    ensures r.Some? ==>
      r.value.at == p && r.value.alt < |Languages| && TargetAt(s, p, r.value.gap, r.value.alt)
  {
    if Boundary(s, p) && ToAt(s, p) then
      var n := SpaceRun(s, p + 2);
      SpaceRunSpaces(s, p + 2);
      var alt := FirstAlt(s, p + 2 + n, 0);
      if n >= 1 && alt.Some? then Some(TargetFound(p, n, alt.value)) else None
    else None
  }

  /** Every match of the target pattern at `p` spans the whole whitespace run after `to`. */
  lemma TargetMatchesUseWholeRun(s: string, p: nat)
    requires p + 2 <= |s|
    ensures forall m': nat, k: nat :: k < |Languages| && TargetAt(s, p, m', k) ==>
      && Boundary(s, p) && ToAt(s, p)
      && m' == SpaceRun(s, p + 2) && AltMatch(s, p + 2 + m', k)
  {
    forall m': nat, k: nat | k < |Languages| && TargetAt(s, p, m', k)
      ensures m' == SpaceRun(s, p + 2)
    {
      TargetGapIsWholeRun(s, p, m', k);
    }
  }

  /** `TargetMatchAt` reports the greedy, first-alternative match at `p`, and none when there is none. */
  lemma TargetMatchAtFirst(s: string, p: nat)
    requires p <= |s|
    ensures TargetMatchAt(s, p).Some? ==>
      var f := TargetMatchAt(s, p).value;
      forall m': nat, k: nat :: k < |Languages| && TargetAt(s, p, m', k) ==> m' == f.gap && f.alt <= k
    ensures TargetMatchAt(s, p).None? ==> forall m': nat, k: nat :: k < |Languages| ==> !TargetAt(s, p, m', k)
  {
    if p + 2 <= |s| {
      TargetMatchesUseWholeRun(s, p);
      match TargetMatchAt(s, p)
      case Some(f) =>
        TargetMatchAtParts(s, p, f);
        TargetMatchAtGreedy(s, p, f);
      case None =>
        TargetMatchAtComplete(s, p);
    }
  }

  lemma TargetMatchAtGreedy(s: string, p: nat, f: TargetFound)
    requires p + 2 <= |s| && f.gap == SpaceRun(s, p + 2) && FirstAlt(s, p + 2 + f.gap, 0) == Some(f.alt)
    requires forall m': nat, k: nat :: k < |Languages| && TargetAt(s, p, m', k) ==>
      && Boundary(s, p) && ToAt(s, p)
      && m' == SpaceRun(s, p + 2) && AltMatch(s, p + 2 + m', k)
    ensures forall m': nat, k: nat :: k < |Languages| && TargetAt(s, p, m', k) ==> m' == f.gap && f.alt <= k
  {
    FirstAltLeast(s, p + 2 + f.gap, f.alt);
  }

  lemma TargetMatchAtParts(s: string, p: nat, f: TargetFound)
    requires p <= |s| && TargetMatchAt(s, p) == Some(f)
    ensures p + 2 <= |s| && f.gap == SpaceRun(s, p + 2) && FirstAlt(s, p + 2 + f.gap, 0) == Some(f.alt)
  {
  }

  /** The alternative `FirstAlt` picks is the lowest-numbered one that matches. */
  lemma FirstAltLeast(s: string, q: nat, alt: nat)
    requires FirstAlt(s, q, 0) == Some(alt)
    ensures forall k: nat :: k < |Languages| && AltMatch(s, q, k) ==> alt <= k
  {
    FirstAltFirst(s, q, 0);
  }

  lemma TargetMatchAtComplete(s: string, p: nat)
    requires p + 2 <= |s|
    requires forall m': nat, k: nat :: k < |Languages| && TargetAt(s, p, m', k) ==>
      && Boundary(s, p) && ToAt(s, p)
      && m' == SpaceRun(s, p + 2) && AltMatch(s, p + 2 + m', k)
    ensures TargetMatchAt(s, p).None? ==> forall m': nat, k: nat :: k < |Languages| ==> !TargetAt(s, p, m', k)
  {
    FirstAltFirst(s, p + 2 + SpaceRun(s, p + 2), 0);
  }

  /** The engine's search for the conversion target from index `from` on. */
  function FindTarget(s: string, from: nat): (r: Option<TargetFound>)
    requires from <= |s|
    ensures r.Some? ==> from <= r.value.at && r.value.alt < |Languages| && TargetAt(s, r.value.at, r.value.gap, r.value.alt)
    decreases |s| - from
  {
    var here := TargetMatchAt(s, from);
    if here.Some? then here
    else if from == |s| then None
    else FindTarget(s, from + 1)
  }

  /** `FindTarget` reports the engine's first match from `from` on, and none only when there is none. */
  lemma {:induction false} FindTargetFirst(s: string, from: nat)
    requires from <= |s|
    ensures FindTarget(s, from).Some? ==>
      var f := FindTarget(s, from).value;
      && (forall q: nat, m': nat, k: nat :: from <= q < f.at && k < |Languages| ==> !TargetAt(s, q, m', k))
      && (forall m': nat, k: nat :: k < |Languages| && TargetAt(s, f.at, m', k) ==> m' == f.gap && f.alt <= k)
    ensures FindTarget(s, from).None? ==>
      forall q: nat, m': nat, k: nat :: from <= q && k < |Languages| ==> !TargetAt(s, q, m', k)
    decreases |s| - from
  {
    TargetMatchAtFirst(s, from);
    if TargetMatchAt(s, from).None? && from < |s| {
      FindTargetFirst(s, from + 1);
      var r := FindTarget(s, from + 1);
      assert FindTarget(s, from) == r;
      if r.Some? {
        forall q: nat, m': nat, k: nat | from <= q < r.value.at && k < |Languages|
          ensures !TargetAt(s, q, m', k)
        {
          if q == from {
            assert !TargetAt(s, from, m', k);
          }
        }
      }
    }
  }

  /** The text captured by match `f` lies inside `s`. */
  predicate CaptureFits(s: string, f: TargetFound) {
    f.alt < |Languages| && f.at + 2 + f.gap + |Languages[f.alt]| <= |s|
  }

  /** `targetMatch ? targetMatch[1] : 'Python'`: the language captured by match `r`, or the default. */
  function CaptureOrPython(s: string, r: Option<TargetFound>): string
    requires r.Some? ==> CaptureFits(s, r.value)
  {
    match r
    case Some(f) => s[f.at + 2 + f.gap..f.at + 2 + f.gap + |Languages[f.alt]|]
    case None => "Python"
  }

  /** The target language of a `convert` prompt. */
  function DetectTarget(instruction: string): (target: string)
  {
    CaptureOrPython(instruction, FindTarget(instruction, 0))
  }

  /**
   * `Python` is the target exactly when nothing matches; otherwise the
   * engine has a first match (whose capture `DetectTargetCaptures` gives).
   */
  lemma DetectTargetSpec(s: string)
    ensures NoTarget(s) ==> DetectTarget(s) == "Python"
    ensures !NoTarget(s) ==> exists p: nat, m: nat, j: nat :: j < |Languages| && FirstTarget(s, p, m, j)
  {
    FindTargetReportsFirst(s);
    match FindTarget(s, 0)
    case None =>
    case Some(f) =>
      assert TargetAt(s, f.at, f.gap, f.alt);
  }

  /** When the engine's first match captures alternative `j` after a run of `m` blanks, that text is the target. */
  lemma DetectTargetCaptures(s: string, p: nat, m: nat, j: nat)
    requires j < |Languages| && FirstTarget(s, p, m, j)
    ensures p + 2 + m + |Languages[j]| <= |s| && DetectTarget(s) == s[p + 2 + m..p + 2 + m + |Languages[j]|]
  {
    SearchFindsFirstTarget(s, p, m, j);
    TargetCaptured(s, TargetFound(p, m, j));
  }

  lemma SearchFindsFirstTarget(s: string, p: nat, m: nat, j: nat)
    requires j < |Languages| && FirstTarget(s, p, m, j)
    ensures FindTarget(s, 0) == Some(TargetFound(p, m, j))
  {
    FindTargetReportsFirst(s);
    assert !NoTarget(s) by {
      assert TargetAt(s, p, m, j);
    }
    var f := FindTarget(s, 0).value;
    FirstTargetUnique(s, p, m, j, f.at, f.gap, f.alt);
  }

  lemma TargetCaptured(s: string, f: TargetFound)
    requires FindTarget(s, 0) == Some(f)
    ensures CaptureFits(s, f)
    ensures DetectTarget(s) == s[f.at + 2 + f.gap..f.at + 2 + f.gap + |Languages[f.alt]|]
  {
    CaptureIsSlice(s, f);
  }

  lemma CaptureIsSlice(s: string, f: TargetFound)
    requires CaptureFits(s, f)
    ensures CaptureOrPython(s, Some(f)) == s[f.at + 2 + f.gap..f.at + 2 + f.gap + |Languages[f.alt]|]
  {
  }

  /** The search from the start finds the engine's first match, or there is none. */
  lemma FindTargetReportsFirst(s: string)
    ensures FindTarget(s, 0).Some? ==>
      var f := FindTarget(s, 0).value;
      FirstTarget(s, f.at, f.gap, f.alt)
    ensures FindTarget(s, 0).None? ==> NoTarget(s)
  {
    FindTargetFirst(s, 0);
  }

  /** The engine's first match is unique. */
  lemma FirstTargetUnique(s: string, p: nat, m: nat, j: nat, p': nat, m': nat, j': nat)
    requires j < |Languages| && j' < |Languages|
    requires FirstTarget(s, p, m, j) && FirstTarget(s, p', m', j')
    ensures p == p' && m == m' && j == j'
  {
    assert TargetAt(s, p, m, j) && TargetAt(s, p', m', j');
  }

  // ---------------------------------------------------------------------
  // The templates (components/promptBuilder.js:13-111)
  // ---------------------------------------------------------------------

  /** The system preamble that opens every prompt (its first line ends in a space). */
  const SystemPrompt: string :=
    "You are an expert software developer assistant. \n" +
    "Respond concisely and accurately with well-formatted code.\n" +
    "DO NOT include any <think> tags or thinking process in your response.\n" +
    "ONLY provide the requested output in a clean format."

  const WriteTrailer: string :=
    "Only provide the code without explanations.\n" +
    "Include proper error handling and comments.\n" +
    "Format your response as a code block with the appropriate language tag."

  const CustomTrailer: string := "If your response includes code, format it with markdown code blocks."

  /** The line before the fenced snippet of a code task; `convert` names the detected target. */
  function Directive(k: TaskKind, instruction: string): string {
    match k
    case Debug => "Debug the following code and explain what's wrong:"
    case Explain => "Explain what this code does in detail:"
    case Refactor => "Refactor the following code to make it more efficient and readable:"
    case Test => "Write unit tests for the following code:"
    case _ => "Convert the following code to " + DetectTarget(instruction) + ":"
  }

  /** The lines after the fenced snippet of a code task. */
  function Trailer(k: TaskKind): string {
    match k
    case Debug =>
      "Identify the issues, explain them briefly, and provide the corrected code.\n" +
      "Format your response with markdown code blocks."
    case Explain => "Break down the explanation by sections and describe the purpose of key components."
    case Refactor =>
      "Provide the refactored code with brief comments explaining the improvements.\n" +
      "Format your response with markdown code blocks."
    case Test =>
      "Use a standard testing framework and cover the main functionality.\n" +
      "Format your response with markdown code blocks."
    case _ =>
      "Provide only the converted code with necessary comments.\n" +
      "Ensure the converted code maintains the same functionality.\n" +
      "Format your response with a markdown code block with the appropriate language tag."
  }

  /** The task types whose template embeds the code snippet. */
  predicate IsCodeTask(k: TaskKind) {
    k == Debug || k == Explain || k == Refactor || k == Test || k == Convert
  }

  /** A code task's body: the directive, a blank line, the fenced code, a blank line, the trailer. */
  function CodeBody(directive: string, code: string, trailer: string): string {
    directive + "\n" + "\n```\n" + code + "\n```\n" + ("\n" + trailer)
  }

  /** What follows the preamble and its blank line, per task type. */
  function TaskBody(k: TaskKind, code: string, instruction: string): string {
    match k
    case Write => "Write a " + instruction + " in " + DetectLanguage(instruction) + ".\n" + WriteTrailer
    case Custom => instruction + ("\n\n" + CustomTrailer)
    case _ => CodeBody(Directive(k, instruction), code, Trailer(k))
  }

  /**
   * `buildPrompt(taskType, codeSnippet, instruction)`.  `instruction` is a
   * string: for anything else `instruction.match` throws, and the caller
   * handles that before calling here.  `codeSnippet` enters a code
   * template as `${codeSnippet}` does, which throws for a value that does
   * not convert (see `Renders`); the other templates do not read it.
   */
  function BuildPrompt(taskType: Field, codeSnippet: Field, instruction: string): (prompt: string)
    requires Renders(taskType, codeSnippet)
  {
    var k := ParseTask(taskType);
    SystemPrompt + "\n\n" + TaskBody(k, if IsCodeTask(k) then Show(codeSnippet) else "", instruction)
  }

  /** The template chosen by `taskType` converts `codeSnippet` without throwing. */
  predicate Renders(taskType: Field, codeSnippet: Field) {
    IsCodeTask(ParseTask(taskType)) ==> Converts(codeSnippet)
  }

  // ---------------------------------------------------------------------
  // Properties of the templates
  // ---------------------------------------------------------------------

  /** Every prompt opens with the system preamble and a blank line. */
  lemma PreambleFirst(taskType: Field, codeSnippet: Field, instruction: string)
    requires Renders(taskType, codeSnippet)
    ensures SystemPrompt + "\n\n" <= BuildPrompt(taskType, codeSnippet, instruction)
  {
    var k := ParseTask(taskType);
    PrefixOfConcat(SystemPrompt + "\n\n", TaskBody(k, if IsCodeTask(k) then Show(codeSnippet) else "", instruction));
  }

  lemma PrefixOfConcat(a: string, b: string)
    ensures a <= a + b
  {
    assert (a + b)[..|a|] == a;
  }

  /** For a code task the prompt is the preamble, its blank line and the task's code body. */
  lemma CodePromptShape(taskType: Field, x: Field, instruction: string)
    requires IsCodeTask(ParseTask(taskType)) && Converts(x)
    ensures var k := ParseTask(taskType);
      BuildPrompt(taskType, x, instruction) == SystemPrompt + "\n\n" + CodeBody(Directive(k, instruction), Show(x), Trailer(k))
  {
    CodeTaskBody(ParseTask(taskType), Show(x), instruction);
  }

  lemma CodeTaskBody(k: TaskKind, code: string, instruction: string)
    requires IsCodeTask(k)
    ensures TaskBody(k, code, instruction) == CodeBody(Directive(k, instruction), code, Trailer(k))
  {
    match k
    case Debug => DebugBody(code, instruction);
    case Explain => ExplainBody(code, instruction);
    case Refactor => RefactorBody(code, instruction);
    case Test => TestBody(code, instruction);
    case Convert => ConvertBody(code, instruction);
  }

  // The code templates one at a time: with the task known, only its own template is unfolded.
  lemma DebugBody(code: string, instruction: string)
    ensures TaskBody(Debug, code, instruction) == CodeBody(Directive(Debug, instruction), code, Trailer(Debug))
  {
  }

  lemma ExplainBody(code: string, instruction: string)
    ensures TaskBody(Explain, code, instruction) == CodeBody(Directive(Explain, instruction), code, Trailer(Explain))
  {
  }

  lemma RefactorBody(code: string, instruction: string)
    ensures TaskBody(Refactor, code, instruction) == CodeBody(Directive(Refactor, instruction), code, Trailer(Refactor))
  {
  }

  lemma TestBody(code: string, instruction: string)
    ensures TaskBody(Test, code, instruction) == CodeBody(Directive(Test, instruction), code, Trailer(Test))
  {
  }

  lemma ConvertBody(code: string, instruction: string)
    ensures TaskBody(Convert, code, instruction) == CodeBody(Directive(Convert, instruction), code, Trailer(Convert))
  {
  }

  lemma CodeBodyAssoc(h: string, d: string, c: string, t: string)
    ensures h + CodeBody(d, c, t) == (h + d + "\n") + "\n```\n" + c + "\n```\n" + ("\n" + t)
  {
  }

  /**
   * For the code tasks the snippet appears verbatim on lines of its own,
   * between two fence lines, and everything around it is the same whatever
   * the snippet is, for every snippet the template can convert.
   */
  lemma SnippetVerbatim(taskType: Field, instruction: string) returns (before: string, after: string)
    requires IsCodeTask(ParseTask(taskType))
    ensures forall x | Converts(x) :: BuildPrompt(taskType, x, instruction) == before + "\n```\n" + Show(x) + "\n```\n" + after
  {
    var k := ParseTask(taskType);
    var h := SystemPrompt + "\n\n";
    var d := Directive(k, instruction);
    var t := Trailer(k);
    before := h + d + "\n";
    after := "\n" + t;
    forall x | Converts(x) ensures BuildPrompt(taskType, x, instruction) == before + "\n```\n" + Show(x) + "\n```\n" + after {
      CodePromptShape(taskType, x, instruction);
      CodeBodyAssoc(h, d, Show(x), t);
    }
  }

  /**
   * The default template: the preamble, a blank line, the instruction
   * verbatim, a blank line, and a trailer that is the same for every
   * instruction and every snippet.
   */
  lemma CustomLayout(taskType: Field) returns (trailer: string)
    requires ParseTask(taskType) == Custom
    ensures forall x, s :: BuildPrompt(taskType, x, s) == SystemPrompt + "\n\n" + s + "\n\n" + trailer
  {
    trailer := CustomTrailer;
    forall x, s ensures BuildPrompt(taskType, x, s) == SystemPrompt + "\n\n" + s + "\n\n" + trailer {
      CustomBody("", s);
      ConcatAssoc(SystemPrompt + "\n\n", s, "\n\n" + trailer);
      ConcatAssoc(SystemPrompt + "\n\n" + s, "\n\n", trailer);
    }
  }

  /**
   * The `write` template: after the preamble and its blank line, the line
   * `Write a <instruction> in <language>.` with the detected language, then
   * a trailer that is the same for every instruction and every snippet.
   */
  lemma WriteLayout(taskType: Field) returns (trailer: string)
    requires ParseTask(taskType) == Write
    ensures forall x, s ::
      BuildPrompt(taskType, x, s) == SystemPrompt + "\n\n" + ("Write a " + s + " in " + DetectLanguage(s) + ".\n") + trailer
  {
    trailer := WriteTrailer;
    forall x, s ensures
      BuildPrompt(taskType, x, s) == SystemPrompt + "\n\n" + ("Write a " + s + " in " + DetectLanguage(s) + ".\n") + trailer
    {
      WriteBody("", s);
      ConcatAssoc(SystemPrompt + "\n\n", "Write a " + s + " in " + DetectLanguage(s) + ".\n", trailer);
    }
  }

  // The two templates without a snippet, with the task known.
  lemma WriteBody(code: string, instruction: string)
    ensures TaskBody(Write, code, instruction) == "Write a " + instruction + " in " + DetectLanguage(instruction) + ".\n" + WriteTrailer
  {
  }

  lemma CustomBody(code: string, instruction: string)
    ensures TaskBody(Custom, code, instruction) == instruction + ("\n\n" + CustomTrailer)
  {
  }

  /** The code tasks other than `convert` do not read the instruction. */
  lemma CodeTasksIgnoreInstruction(taskType: Field, x: Field, s: string, t: string)
    requires ParseTask(taskType) in {Debug, Explain, Refactor, Test} && Converts(x)
    ensures BuildPrompt(taskType, x, s) == BuildPrompt(taskType, x, t)
  {
    CodePromptShape(taskType, x, s);
    CodePromptShape(taskType, x, t);
  }

  /** `convert` reads the instruction only through the target it detects there. */
  lemma ConvertReadsOnlyTarget(taskType: Field, x: Field, s: string, t: string)
    requires ParseTask(taskType) == Convert && Converts(x) && DetectTarget(s) == DetectTarget(t)
    ensures BuildPrompt(taskType, x, s) == BuildPrompt(taskType, x, t)
  {
    CodePromptShape(taskType, x, s);
    CodePromptShape(taskType, x, t);
  }

  /** A start index where the target pattern does not match passes the search on to the next. */
  lemma FindTargetStep(s: string, from: nat)
    requires from < |s| && TargetMatchAt(s, from).None?
    ensures FindTarget(s, from) == FindTarget(s, from + 1)
  {
  }

  /** "convert to Rust" names Rust as the target. */
  lemma ConvertToExample(s: string)
    requires s == "convert to Rust"
    ensures DetectTarget(s) == "Rust"
  {
    ConvertToFrom0(s);
    ConvertToFrom4(s);
    ConvertToAt8(s);
  }

  // The search over "convert to Rust", a few start indices at a time.
  lemma ConvertToFrom0(s: string)
    requires s == "convert to Rust"
    ensures FindTarget(s, 0) == FindTarget(s, 4)
  {
    FindTargetStep(s, 0);
    FindTargetStep(s, 1);
    FindTargetStep(s, 2);
    FindTargetStep(s, 3);
  }

  lemma ConvertToFrom4(s: string)
    requires s == "convert to Rust"
    ensures FindTarget(s, 4) == FindTarget(s, 8)
  {
    FindTargetStep(s, 4);
    FindTargetStep(s, 5);
    FindTargetStep(s, 6);
    FindTargetStep(s, 7);
  }

  lemma ConvertToAt8(s: string)
    requires s == "convert to Rust"
    ensures FindTarget(s, 8) == Some(TargetFound(8, 1, 7))
  {
    assert Boundary(s, 8) && ToAt(s, 8);
    assert SpaceRun(s, 10) == 1;
    assert MatchesFrom(s, 11, Languages[7], 4, true);
    assert MatchesFrom(s, 11, Languages[7], 3, true);
    assert MatchesFrom(s, 11, Languages[7], 2, true);
    assert MatchesFrom(s, 11, Languages[7], 1, true);
    assert MatchesFrom(s, 11, Languages[7], 0, true);
    assert FirstAlt(s, 11, 7) == Some(7);
    assert FirstAlt(s, 11, 6) == Some(7);
    assert s[13] == 's' && Languages[5][2] == 'b';
    assert !MatchesFrom(s, 11, Languages[5], 2, true);
    assert !MatchesFrom(s, 11, Languages[5], 0, true);
    assert FirstAlt(s, 11, 5) == Some(7);
    assert FirstAlt(s, 11, 4) == Some(7);
    assert FirstAlt(s, 11, 3) == Some(7);
    assert FirstAlt(s, 11, 2) == Some(7);
    assert FirstAlt(s, 11, 1) == Some(7);
    assert FirstAlt(s, 11, 0) == Some(7);
  }

  /** In "convert into Rust" the `to` is inside a word, so the default target applies. */
  lemma ConvertIntoExample(s: string)
    requires s == "convert into Rust"
    ensures DetectTarget(s) == "Python"
  {
    ConvertIntoFrom0(s);
    ConvertIntoFrom3(s);
    ConvertIntoFrom6(s);
    ConvertIntoFrom10(s);
    ConvertIntoFrom13(s);
  }

  // The search over "convert into Rust", a few start indices at a time.
  lemma ConvertIntoFrom0(s: string)
    requires s == "convert into Rust"
    ensures FindTarget(s, 0) == FindTarget(s, 3)
  {
    FindTargetStep(s, 0);
    FindTargetStep(s, 1);
    FindTargetStep(s, 2);
  }

  lemma ConvertIntoFrom3(s: string)
    requires s == "convert into Rust"
    ensures FindTarget(s, 3) == FindTarget(s, 6)
  {
    FindTargetStep(s, 3);
    FindTargetStep(s, 4);
    FindTargetStep(s, 5);
  }

  lemma ConvertIntoFrom6(s: string)
    requires s == "convert into Rust"
    ensures FindTarget(s, 6) == FindTarget(s, 10)
  {
    FindTargetStep(s, 6);
    FindTargetStep(s, 7);
    FindTargetStep(s, 8);
    FindTargetStep(s, 9);
  }

  lemma ConvertIntoFrom10(s: string)
    requires s == "convert into Rust"
    ensures FindTarget(s, 10) == FindTarget(s, 13)
  {
    FindTargetStep(s, 10);
    FindTargetStep(s, 11);
    FindTargetStep(s, 12);
  }

  lemma ConvertIntoFrom13(s: string)
    requires s == "convert into Rust"
    ensures FindTarget(s, 13) == None
  {
    FindTargetStep(s, 13);
    FindTargetStep(s, 14);
    FindTargetStep(s, 15);
    FindTargetStep(s, 16);
  }
}
