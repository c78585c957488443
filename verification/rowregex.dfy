/**
 * The row patterns the detail pages test with `re.match`:
 * `^\s*head .*w1 .*w2 ...` optionally followed by one more character (`.`), then
 * `\s*` (which matches the empty string, so it adds nothing). `.` and `.*` never
 * cross a newline; the leading `\s*` may.
 */
module RowRegex {
  import opened PyText

  datatype Regex = Regex(head: string, words: seq<string>, anyChar: bool)

  /** No newline in `s[i..j]`. */
  predicate NoNewlineIn(s: string, i: int, j: int)
    requires 0 <= i <= j <= |s|
  {
    forall m :: i <= m < j ==> s[m] != '\n'
  }

  /** What is left after the last word: nothing, or one non-newline character. */
  predicate TailOk(s: string, i: int, anyChar: bool) {
    0 <= i <= |s| && (anyChar ==> i < |s| && s[i] != '\n')
  }

  /** `.*w1 .*w2 ...` (then the tail) matches `s` from position `i`, by definition. */
  predicate Follows(s: string, i: int, words: seq<string>, anyChar: bool)
    decreases |words|, 1
  {
    if words == [] then TailOk(s, i, anyChar)
    else 0 <= i <= |s| && exists j :: i <= j <= |s| && WordAt(s, i, j, words, anyChar)
  }

  /** The `.*` before the first word stops at `j`, where that word occurs and the rest follows. */
  predicate WordAt(s: string, i: int, j: int, words: seq<string>, anyChar: bool)
    requires words != []
    decreases |words|, 0
  {
    0 <= i <= j <= |s| && NoNewlineIn(s, i, j) && OccursAt(s, words[0], j) &&
    Follows(s, j + |words[0]|, words[1..], anyChar)
  }

  /** The leading `\s*` stops at `i`, where the head occurs and the words follow. */
  predicate HeadAt(re: Regex, s: string, i: int) {
    0 <= i <= |s| && AllSpace(s[..i]) && OccursAt(s, re.head, i) &&
    Follows(s, i + |re.head|, re.words, re.anyChar)
  }

  /** `re.match(pattern, s)` is not None. */
  predicate Matches(re: Regex, s: string) {
    exists i :: 0 <= i <= |s| && HeadAt(re, s, i)
  }

  /** A backtracking search for the words, position by position. */
  function Search(s: string, j: nat, words: seq<string>, anyChar: bool): bool
    requires j <= |s|
    decreases |words|, |s| - j
  {
    if words == [] then TailOk(s, j, anyChar)
    else
      (OccursAt(s, words[0], j) && Search(s, j + |words[0]|, words[1..], anyChar)) ||
      (j < |s| && s[j] != '\n' && Search(s, j + 1, words, anyChar))
  }

  /** The decision procedure: skip the leading whitespace, then search. */
  function Test(re: Regex, s: string): bool {
    var i := SkipSpaces(s, 0);
    OccursAt(s, re.head, i) && Search(s, i + |re.head|, re.words, re.anyChar)
  }

  /** Moving the start of `.*` over one non-newline character before the word. */
  lemma WordAtShift(s: string, j: int, k: int, words: seq<string>, anyChar: bool)
    requires words != [] && 0 <= j < k <= |s| && s[j] != '\n'
    ensures WordAt(s, j, k, words, anyChar) <==> WordAt(s, j + 1, k, words, anyChar)
  {
    assert NoNewlineIn(s, j, k) <==> NoNewlineIn(s, j + 1, k);
  }

  lemma FollowsWitness(s: string, j: nat, words: seq<string>, anyChar: bool)
    requires words != [] && j <= |s| && Follows(s, j, words, anyChar)
    ensures exists k :: j <= k <= |s| && WordAt(s, j, k, words, anyChar)
  {
  }

  lemma {:induction false} SearchFollows(s: string, j: nat, words: seq<string>, anyChar: bool)
    requires j <= |s|
    ensures Search(s, j, words, anyChar) <==> Follows(s, j, words, anyChar)
    decreases |words|, |s| - j
  {
    if words != [] {
      var w := words[0];
      if OccursAt(s, w, j) {
        SearchFollows(s, j + |w|, words[1..], anyChar);
      }
      if j < |s| && s[j] != '\n' {
        SearchFollows(s, j + 1, words, anyChar);
      }
      if Follows(s, j, words, anyChar) {
        FollowsWitness(s, j, words, anyChar);
        var k :| j <= k <= |s| && WordAt(s, j, k, words, anyChar);
        if k == j {
          SearchFollows(s, j + |w|, words[1..], anyChar);
        } else {
          WordAtShift(s, j, k, words, anyChar);
        }
      }
      if j < |s| && s[j] != '\n' && Follows(s, j + 1, words, anyChar) {
        var k :| j + 1 <= k <= |s| && WordAt(s, j + 1, k, words, anyChar);
        WordAtShift(s, j, k, words, anyChar);
      }
      if OccursAt(s, w, j) && Follows(s, j + |w|, words[1..], anyChar) {
        assert WordAt(s, j, j, words, anyChar);
      }
    }
  }

  /**
   * The decision procedure agrees with `re.match` when the pattern's first word
   * starts with a non-space: the leading `\s*` must then stop exactly where the
   * whitespace ends.
   */
  lemma TestMatches(re: Regex, s: string)
    requires re.head != [] && !IsSpace(re.head[0])
    ensures Test(re, s) <==> Matches(re, s)
  {
    if Test(re, s) {
      TestFindsHead(re, s);
    }
    if Matches(re, s) {
      MatchPassesTest(re, s);
    }
  }

  /** When the search succeeds, the head occurs right after the leading whitespace. */
  lemma TestFindsHead(re: Regex, s: string)
    requires Test(re, s)
    ensures Matches(re, s)
  {
    var i := SkipSpaces(s, 0);
    assert OccursAt(s, re.head, i) && Search(s, i + |re.head|, re.words, re.anyChar);
    SearchFollows(s, i + |re.head|, re.words, re.anyChar);
    assert AllSpace(s[..i]);
    assert HeadAt(re, s, i);
  }

  /** A match puts the head where the leading whitespace ends, so the search finds it. */
  lemma MatchPassesTest(re: Regex, s: string)
    requires re.head != [] && !IsSpace(re.head[0])
    requires Matches(re, s)
    ensures Test(re, s)
  {
    var k :| 0 <= k <= |s| && HeadAt(re, s, k);
    HeadAtPassesTest(re, s, k);
  }

  lemma HeadAtPassesTest(re: Regex, s: string, k: int)
    requires re.head != [] && !IsSpace(re.head[0])
    requires 0 <= k <= |s| && HeadAt(re, s, k)
    ensures Test(re, s)
  {
    HeadAtSkip(re, s, k);
    var j := k + |re.head|;
    SearchFollows(s, j, re.words, re.anyChar);
  }

  /** A head starting with a non-space can only sit where the leading whitespace ends. */
  lemma HeadAtSkip(re: Regex, s: string, k: int)
    requires re.head != [] && !IsSpace(re.head[0])
    requires 0 <= k <= |s| && HeadAt(re, s, k)
    ensures k == SkipSpaces(s, 0)
  {
    var i := SkipSpaces(s, 0);
    assert s[k] == re.head[0] by {
      assert s[k..][..|re.head|] == re.head;
      assert s[k..][..|re.head|][0] == s[k];
    }
    assert !(k < i);
    assert !(i < k);
  }
}
