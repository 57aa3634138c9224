/**
 * The lesson identifier of a page, taken from its path the way `getLessonId` in rating.js does:
 * the first match of the regular expression `lesson-(l\d+-\d+)\.html` anywhere in the path,
 * returning the captured group, or null when the path holds no match.
 *
 * Neither `\d+` ever backtracks: each is followed by a literal that is not a digit (`-` and `.`),
 * so a match at a position exists exactly when the greedy digit runs are followed by those literals.
 * `GetLessonId` is that matcher; `OccursAt` is the declarative reading of the pattern, and the lemmas
 * at the end show that the matcher returns the token of the leftmost occurrence, and null iff none.
 */
module LessonId {
  import opened Wrappers

  /** `\d` in a JavaScript regular expression without the `u` flag: an ASCII decimal digit. */
  predicate IsDigit(c: char) {
    '0' <= c <= '9'
  }

  predicate AllDigits(s: string) {
    forall k :: 0 <= k < |s| ==> IsDigit(s[k])
  }

  predicate IsPrefix(p: string, s: string) {
    |p| <= |s| && s[..|p|] == p
  }

  /** The lesson identifier made of the two digit groups: `l<a>-<b>` (the regular expression's group). */
  function Token(a: string, b: string): string {
    "l" + a + "-" + b
  }

  /** The text the regular expression matches when its digit groups are `a` and `b`. */
  function Pattern(a: string, b: string): string {
    "lesson-l" + a + "-" + b + ".html"
  }

  /** `s` starts with the pattern, with digit groups `a` and `b`. */
  ghost predicate StartsWithPattern(s: string, a: string, b: string) {
    && a != [] && AllDigits(a)
    && b != [] && AllDigits(b)
    && IsPrefix(Pattern(a, b), s)
  }

  /** The pattern occurs in `path` at index `i`, with digit groups `a` and `b`. */
  ghost predicate OccursAt(path: string, i: int, a: string, b: string) {
    0 <= i <= |path| && StartsWithPattern(path[i..], a, b)
  }

  /** No occurrence of the pattern starts at an index in [lo, hi). */
  ghost predicate NoOccurrenceBetween(path: string, lo: int, hi: int) {
    forall j, a, b :: lo <= j < hi ==> !OccursAt(path, j, a, b)
  }

  /** Length of the run of digits starting at index `i`: what a greedy `\d+` consumes there. */
  function DigitRun(s: string, i: nat): (n: nat)
    requires i <= |s|
    ensures i + n <= |s|
    ensures forall k :: i <= k < i + n ==> IsDigit(s[k])
    ensures i + n == |s| || !IsDigit(s[i + n])
    decreases |s| - i
  {
    if i < |s| && IsDigit(s[i]) then 1 + DigitRun(s, i + 1) else 0
  }

  /** The regular expression matched at the front of `s`: the captured group, or None. */
  function MatchFront(s: string): Option<string> {
    if !IsPrefix("lesson-l", s) then None
    else
      var k := DigitRun(s, 8);
      if k == 0 || 8 + k == |s| || s[8 + k] != '-' then None
      else
        var m := DigitRun(s, 9 + k);
        if m == 0 || !IsPrefix(".html", s[9 + k + m..]) then None
        else Some(s[7..9 + k + m])
  }

  /** The leftmost match at an index no smaller than `i`. */
  function FindFrom(path: string, i: nat): Option<string>
    requires i <= |path|
    decreases |path| - i
  {
    match MatchFront(path[i..])
    case Some(t) => Some(t)
    case None => if i == |path| then None else FindFrom(path, i + 1)
  }

  /** `getLessonId`: the lesson identifier in the page path, or None (JavaScript null). */
  function GetLessonId(path: string): Option<string> {
    FindFrom(path, 0)
  }

  /** A run of exactly `n` digits at `i`, followed by a non-digit or the end, is what `DigitRun` measures. */
  lemma {:induction false} DigitRunExact(s: string, i: nat, n: nat)
    requires i + n <= |s|
    requires forall k :: i <= k < i + n ==> IsDigit(s[k])
    requires i + n == |s| || !IsDigit(s[i + n])
    ensures DigitRun(s, i) == n
    decreases n
  {
    if n > 0 {
      DigitRunExact(s, i + 1, n - 1);
    }
  }

  /** The digit run at `p` is a digit group standing at `p`. */
  lemma DigitRunGroup(s: string, p: nat)
    requires p <= |s|
    ensures AllDigits(s[p..p + DigitRun(s, p)])
    ensures IsPrefix(s[p..p + DigitRun(s, p)], s[p..])
  {
    var n := DigitRun(s, p);
    var g := s[p..p + n];
    forall k | 0 <= k < |g| ensures IsDigit(g[k]) {
      assert g[k] == s[p + k];
    }
  }

  /** A digit group standing at `p` and followed by a non-digit is the digit run at `p`. */
  lemma GroupIsDigitRun(s: string, p: nat, g: string)
    requires p <= |s| && IsPrefix(g, s[p..]) && AllDigits(g)
    requires p + |g| == |s| || !IsDigit(s[p + |g|])
    ensures DigitRun(s, p) == |g|
  {
    forall k | p <= k < p + |g| ensures IsDigit(s[k]) {
      assert s[k] == s[p..][..|g|][k - p];
    }
    DigitRunExact(s, p, |g|);
  }

  /** Matching a concatenation at the front of `s` is matching its parts one after the other. */
  lemma PrefixConcat(x: string, y: string, s: string)
    ensures IsPrefix(x + y, s) <==> IsPrefix(x, s) && IsPrefix(y, s[|x|..])
  {
    if IsPrefix(x, s) && IsPrefix(y, s[|x|..]) {
      assert s[..|x + y|] == s[..|x|] + s[|x|..][..|y|];
    }
    if IsPrefix(x + y, s) {
      assert s[..|x|] == s[..|x + y|][..|x|];
      assert s[|x|..][..|y|] == s[..|x + y|][|x|..];
    }
  }

  /** The pattern at the front of `s`, piece by piece. */
  lemma PatternAt(s: string, a: string, b: string)
    ensures IsPrefix(Pattern(a, b), s) <==>
      && IsPrefix("lesson-l", s)
      && IsPrefix(a, s[8..])
      && IsPrefix("-", s[8 + |a|..])
      && IsPrefix(b, s[9 + |a|..])
      && IsPrefix(".html", s[9 + |a| + |b|..])
  {
    PrefixConcat("lesson-l" + a + "-" + b, ".html", s);
    PrefixConcat("lesson-l" + a + "-", b, s);
    PrefixConcat("lesson-l" + a, "-", s);
    PrefixConcat("lesson-l", a, s);
  }

  /** A slice that reads `l`, a digit group, `-` and a digit group is the token of those groups. */
  lemma TokenSlice(s: string, lo: nat, mid: nat, hi: nat)
    requires lo < mid < hi <= |s| && s[lo] == 'l' && s[mid] == '-'
    ensures s[lo..hi] == Token(s[lo + 1..mid], s[mid + 1..hi])
  {
    assert s[lo..hi] == s[lo..lo + 1] + s[lo + 1..mid] + s[mid..mid + 1] + s[mid + 1..hi];
    assert s[lo..lo + 1] == "l" && s[mid..mid + 1] == "-";
  }

  lemma GroupStartsWithL(s: string)
    requires IsPrefix("lesson-l", s)
    ensures s[7] == 'l'
  {
    assert s[7] == s[..8][7];
  }

  /** Text that reads `lesson-l`, `k` digits, `-`, `m` digits and `.html` starts with the pattern. */
  lemma PartsFormPattern(s: string, k: nat, m: nat)
    requires 0 < k && 0 < m && 9 + k + m <= |s|
    requires IsPrefix("lesson-l", s) && s[8 + k] == '-' && IsPrefix(".html", s[9 + k + m..])
    requires forall j :: 8 <= j < 8 + k ==> IsDigit(s[j])
    requires forall j :: 9 + k <= j < 9 + k + m ==> IsDigit(s[j])
    ensures StartsWithPattern(s, s[8..8 + k], s[9 + k..9 + k + m])
    ensures s[7..9 + k + m] == Token(s[8..8 + k], s[9 + k..9 + k + m])
  {
    var a, b := s[8..8 + k], s[9 + k..9 + k + m];
    assert AllDigits(a) by {
      forall j | 0 <= j < |a| ensures IsDigit(a[j]) {
        assert a[j] == s[8 + j];
      }
    }
    assert AllDigits(b) by {
      forall j | 0 <= j < |b| ensures IsDigit(b[j]) {
        assert b[j] == s[9 + k + j];
      }
    }
    assert IsPrefix("-", s[8 + k..]) by {
      assert s[8 + k..][..1] == [s[8 + k]];
    }
    assert IsPrefix(a, s[8..]) && IsPrefix(b, s[9 + k..]);
    PatternAt(s, a, b);
    GroupStartsWithL(s);
    TokenSlice(s, 7, 8 + k, 9 + k + m);
  }

  /** What a match at the front of `s` returns is the token of the pattern standing there. */
  lemma MatchFrontSound(s: string)
    requires MatchFront(s).Some?
    ensures exists a, b :: StartsWithPattern(s, a, b) && MatchFront(s).value == Token(a, b)
  {
    var k := DigitRun(s, 8);
    var m := DigitRun(s, 9 + k);
    PartsFormPattern(s, k, m);
    assert StartsWithPattern(s, s[8..8 + k], s[9 + k..9 + k + m]);
  }

  /** The pattern standing at the front of `s` is matched there, with its own token. */
  lemma MatchFrontComplete(s: string, a: string, b: string)
    requires StartsWithPattern(s, a, b)
    ensures MatchFront(s) == Some(Token(a, b))
  {
    PatternAt(s, a, b);
    var q := 9 + |a|;
    assert s[8 + |a|] == '-' by {
      assert s[8 + |a|] == s[8 + |a|..][..1][0];
    }
    assert s[q + |b|] == '.' by {
      assert s[q + |b|] == s[q + |b|..][..5][0];
    }
    GroupIsDigitRun(s, 8, a);
    GroupIsDigitRun(s, q, b);
    GroupStartsWithL(s);
    TokenSlice(s, 7, 8 + |a|, q + |b|);
    assert s[8..8 + |a|] == a by {
      assert s[8..8 + |a|] == s[8..][..|a|];
    }
    assert s[q..q + |b|] == b by {
      assert s[q..q + |b|] == s[q..][..|b|];
    }
  }

  lemma NoneAtMeansNoOccurrence(path: string, i: nat)
    requires i <= |path| && MatchFront(path[i..]).None?
    ensures forall a, b :: !OccursAt(path, i, a, b)
  {
    forall a, b | OccursAt(path, i, a, b) ensures false {
      MatchFrontComplete(path[i..], a, b);
    }
  }

  /** A match found from `i` is the token of an occurrence with none before it (from `i` on). */
  lemma {:induction false} FindFromFound(path: string, i: nat) returns (j: nat, a: string, b: string)
    requires i <= |path| && FindFrom(path, i).Some?
    ensures i <= j && OccursAt(path, j, a, b) && FindFrom(path, i).value == Token(a, b)
    ensures NoOccurrenceBetween(path, i, j)
    decreases |path| - i
  {
    if MatchFront(path[i..]).Some? {
      MatchFrontSound(path[i..]);
      j := i;
      a, b :| StartsWithPattern(path[i..], a, b) && MatchFront(path[i..]).value == Token(a, b);
    } else {
      NoneAtMeansNoOccurrence(path, i);
      j, a, b := FindFromFound(path, i + 1);
    }
  }

  /** If nothing is found from `i`, the pattern occurs nowhere from `i` on. */
  lemma {:induction false} FindFromNotFound(path: string, i: nat)
    requires i <= |path| && FindFrom(path, i).None?
    ensures NoOccurrenceBetween(path, i, |path| + 1)
    decreases |path| - i
  {
    NoneAtMeansNoOccurrence(path, i);
    if i < |path| {
      FindFromNotFound(path, i + 1);
    }
  }

  /** The first occurrence from `i` on is the one found. */
  lemma {:induction false} FindFromFirst(path: string, i: nat, j: nat, a: string, b: string)
    requires i <= j && OccursAt(path, j, a, b) && NoOccurrenceBetween(path, i, j)
    ensures FindFrom(path, i) == Some(Token(a, b))
    decreases j - i
  {
    if i == j {
      MatchFrontComplete(path[i..], a, b);
    } else {
      if MatchFront(path[i..]).Some? {
        MatchFrontSound(path[i..]);
        var a', b' :| StartsWithPattern(path[i..], a', b');
        assert OccursAt(path, i, a', b');
        assert false;
      }
      FindFromFirst(path, i + 1, j, a, b);
    }
  }

  /** A returned identifier is the token `l<a>-<b>` of the leftmost occurrence of `lesson-l<a>-<b>.html`. */
  lemma GetLessonIdSound(path: string)
    requires GetLessonId(path).Some?
    ensures exists i, a, b :: OccursAt(path, i, a, b) && NoOccurrenceBetween(path, 0, i)
                              && GetLessonId(path).value == Token(a, b)
  {
    var i, a, b := FindFromFound(path, 0);
  }

  /** The leftmost occurrence of the pattern is what `GetLessonId` returns. */
  lemma GetLessonIdComplete(path: string, i: nat, a: string, b: string)
    requires OccursAt(path, i, a, b) && NoOccurrenceBetween(path, 0, i)
    ensures GetLessonId(path) == Some(Token(a, b))
  {
    FindFromFirst(path, 0, i, a, b);
  }

  /** `GetLessonId` returns null exactly when the pattern occurs nowhere in the path. */
  lemma GetLessonIdNone(path: string)
    ensures GetLessonId(path).None? <==> forall i, a, b :: !OccursAt(path, i, a, b)
  {
    if GetLessonId(path).None? {
      FindFromNotFound(path, 0);
    } else {
      var i, a, b := FindFromFound(path, 0);
    }
  }

  /** The page `/index.html` has no lesson identifier: the path is shorter than any occurrence. */
  lemma IndexPageHasNoLessonId()
    ensures GetLessonId("/index.html") == None
  {
    forall i, a, b ensures !OccursAt("/index.html", i, a, b) {
      assert |Pattern(a, b)| == 14 + |a| + |b|;
    }
    GetLessonIdNone("/index.html");
  }

  lemma LessonPageSpelling()
    ensures "/" + Pattern("0", "1") == "/lesson-l0-1.html"
    ensures Token("0", "1") == "l0-1"
  {
  }

  /** The identifier of `/lesson-l0-1.html` is `l0-1`. */
  lemma LessonPageId()
    ensures GetLessonId("/lesson-l0-1.html") == Some("l0-1")
  {
    var path := "/" + Pattern("0", "1");
    assert path[1..] == Pattern("0", "1");
    assert OccursAt(path, 1, "0", "1");
    forall a, b ensures !OccursAt(path, 0, a, b) {
      assert Pattern(a, b)[0] == 'l' != path[0];
    }
    GetLessonIdComplete(path, 1, "0", "1");
    LessonPageSpelling();
  }
}
