/** Recognising the engine's budget refusal and the reset timestamp in it:
    word-bounded marker search and date extraction (dates as in section 5.6 of
    RFC 3339). */
module ResetTimestamp {
  import opened FixedWidth
  import opened Sorting
  import opened Text

  // ------------------------------------------------------------- characters

  predicate IsDigit(c: char) { '0' <= c <= '9' }

  predicate IsWord(c: char) { IsDigit(c) || 'a' <= c <= 'z' || 'A' <= c <= 'Z' || c == '_' }

  function LowerChar(c: char): char {
    if 'A' <= c <= 'Z' then c - 'A' + 'a' else c
  }

  function Lower(s: string): (r: string)
    ensures |r| == |s|
  {
    seq(|s|, i requires 0 <= i < |s| => LowerChar(s[i]))
  }

  /** The same letter, in either case, or the same character. */
  predicate SameButCase(a: char, b: char) {
    || a == b
    || ('A' <= a <= 'Z' && b as int == a as int + 32)
    || ('A' <= b <= 'Z' && a as int == b as int + 32)
  }

  /** Lowering forgets the case of letters and nothing else. */
  lemma LowerIsCaseBlind(a: string, b: string)
    ensures Lower(a) == Lower(b) <==> |a| == |b| && forall i :: 0 <= i < |a| ==> SameButCase(a[i], b[i])
    ensures (forall i :: 0 <= i < |a| ==> !('A' <= a[i] <= 'Z')) ==> Lower(a) == a
  {
    if Lower(a) == Lower(b) {
      forall i | 0 <= i < |a| ensures SameButCase(a[i], b[i]) {
        assert LowerChar(a[i]) == Lower(a)[i] == Lower(b)[i] == LowerChar(b[i]);
      }
    }
    if |a| == |b| && forall i :: 0 <= i < |a| ==> SameButCase(a[i], b[i]) {
      assert forall i :: 0 <= i < |a| ==> Lower(a)[i] == Lower(b)[i];
    }
  }

  // ----------------------------------------------------------- word matches

  /** The occurrence is not part of a longer word. A side is checked only
      where the needle itself has a word character. */
  predicate Bounded(h: string, n: string, i: nat)
    requires OccursAt(h, n, i)
  {
    && (n != "" && IsWord(n[0]) ==> i == 0 || !IsWord(h[i - 1]))
    && (n != "" && IsWord(n[|n| - 1]) ==> i + |n| >= |h| || !IsWord(h[i + |n|]))
  }

  predicate IsWordMatch(h: string, n: string, i: nat) { OccursAt(h, n, i) && Bounded(h, n, i) }

  /** The non-overlapping occurrences, left to right, from `from` on. */
  function MatchIndices(h: string, n: string, from: nat): (r: seq<nat>)
    ensures forall i :: i in r ==> i >= from && OccursAt(h, n, i)
    decreases |h| + 1 - from
  {
    if from > |h| then []
    else if OccursAt(h, n, from) then [from] + MatchIndices(h, n, from + Max(1, |n|))
    else MatchIndices(h, n, from + 1)
  }

  function Filter(h: string, n: string, s: seq<nat>): (r: seq<nat>)
    ensures forall i :: i in r <==> i in s && IsWordMatch(h, n, i)
  {
    if s == [] then []
    else (if IsWordMatch(h, n, s[0]) then [s[0]] else []) + Filter(h, n, s[1..])
  }

  function WordMatches(h: string, n: string): seq<nat> { Filter(h, n, MatchIndices(h, n, 0)) }

  predicate HasWord(h: string, n: string) { WordMatches(h, n) != [] }

  /** A proper prefix of the needle, `k` long, that is also a suffix of it. */
  predicate IsBorder(n: string, k: nat) { 0 < k < |n| && n[..k] == n[|n| - k..] }

  predicate Borderless(n: string) { forall k :: 0 < k < |n| ==> !IsBorder(n, k) }

  /** Every border continues a word of the needle on its left, so that an
      occurrence which overlaps an earlier one that far is never a word. */
  predicate WordBorderless(n: string) {
    forall k :: 0 < k < |n| && IsBorder(n, k) ==> IsWord(n[0]) && IsWord(n[|n| - k - 1])
  }

  lemma OverlapIsABorder(h: string, n: string, i: nat, j: nat)
    requires OccursAt(h, n, i) && OccursAt(h, n, j) && i < j < i + |n|
    ensures var k := i + |n| - j; IsBorder(n, k) && h[j - 1] == n[|n| - k - 1]
  {
    var k := i + |n| - j;
    assert n[..k] == h[j..j + |n|][..k] == h[j..j + k];
    assert n[|n| - k..] == h[i..i + |n|][|n| - k..] == h[j..j + k];
    assert h[i..i + |n|][j - 1 - i] == h[j - 1];
  }

  /** The search finds an occurrence that overlaps no earlier one. */
  lemma {:induction false} MatchIndicesFinds(h: string, n: string, from: nat, j: nat)
    requires from <= j && OccursAt(h, n, j)
    requires forall i: nat :: i < j && OccursAt(h, n, i) ==> i + |n| <= j
    ensures j in MatchIndices(h, n, from)
    decreases |h| + 1 - from
  {
    if j > from {
      MatchIndicesFinds(h, n, if OccursAt(h, n, from) then from + Max(1, |n|) else from + 1, j);
    }
  }

  /** For a needle without word borders the search reports exactly the
      word-bounded occurrences. */
  lemma WordMatchesExact(h: string, n: string, j: nat)
    requires WordBorderless(n)
    ensures j in WordMatches(h, n) <==> IsWordMatch(h, n, j)
  {
    if IsWordMatch(h, n, j) {
      forall i: nat | i < j && OccursAt(h, n, i) ensures i + |n| <= j {
        if j < i + |n| {
          OverlapIsABorder(h, n, i, j);
        }
      }
      MatchIndicesFinds(h, n, 0, j);
    }
  }

  lemma {:induction false} FilterHeadIsLeast(h: string, n: string, s: seq<nat>)
    requires Ascending(s)
    ensures var r := Filter(h, n, s); r != [] ==> forall i :: i in r ==> r[0] <= i
  {
    if s != [] {
      FilterHeadIsLeast(h, n, s[1..]);
    }
  }

  lemma {:induction false} MatchIndicesAscend(h: string, n: string, from: nat)
    ensures Ascending(MatchIndices(h, n, from))
    decreases |h| + 1 - from
  {
    if from <= |h| {
      if OccursAt(h, n, from) {
        MatchIndicesAscend(h, n, from + Max(1, |n|));
        ConsAscending(from, MatchIndices(h, n, from + Max(1, |n|)));
      } else {
        MatchIndicesAscend(h, n, from + 1);
      }
    }
  }

  /** `i` is the first word-bounded occurrence. */
  predicate FirstWordMatch(h: string, n: string, i: nat) {
    IsWordMatch(h, n, i) && forall j: nat :: j < i ==> !IsWordMatch(h, n, j)
  }

  lemma HeadIsTheFirst(h: string, n: string)
    requires WordBorderless(n)
    ensures var r := WordMatches(h, n);
            && (HasWord(h, n) <==> exists i: nat :: IsWordMatch(h, n, i))
            && (r != [] ==> FirstWordMatch(h, n, r[0]))
  {
    var r := WordMatches(h, n);
    forall i: nat ensures i in r <==> IsWordMatch(h, n, i) {
      WordMatchesExact(h, n, i);
    }
    MatchIndicesAscend(h, n, 0);
    FilterHeadIsLeast(h, n, MatchIndices(h, n, 0));
    if r != [] {
      assert r[0] in r;
      forall j: nat | j < r[0] ensures !IsWordMatch(h, n, j) {
        assert j !in r;
      }
    }
  }

  /** The text in which a border of length `k` makes the search miss the
      occurrence at `|n| - k`. */
  lemma BorderHidesAnOccurrence(n: string, k: nat)
    requires IsBorder(n, k)
    ensures var h, j := n + n[k..], |n| - k;
            && OccursAt(h, n, j) && j + |n| == |h| && h[j - 1] == n[|n| - k - 1]
            && j !in MatchIndices(h, n, 0)
  {
    var h, j := n + n[k..], |n| - k;
    assert h[0..|n|] == n;
    assert h[j..j + |n|] == n by {
      assert h[j..j + |n|] == n[|n| - k..] + n[k..];
      assert n == n[..k] + n[k..];
    }
    assert OccursAt(h, n, 0);
    assert forall i :: i in MatchIndices(h, n, |n|) ==> i >= |n|;
  }

  /** The plain search finds every occurrence in every text if and only if the
      needle is borderless. */
  lemma SearchIsCompleteIff(n: string)
    ensures Borderless(n) <==>
              forall h: string, j: nat :: OccursAt(h, n, j) ==> j in MatchIndices(h, n, 0)
  {
    if Borderless(n) {
      forall h: string, j: nat | OccursAt(h, n, j) ensures j in MatchIndices(h, n, 0) {
        forall i: nat | i < j && OccursAt(h, n, i) ensures i + |n| <= j {
          if j < i + |n| {
            OverlapIsABorder(h, n, i, j);
          }
        }
        MatchIndicesFinds(h, n, 0, j);
      }
    } else {
      var k :| 0 < k < |n| && IsBorder(n, k);
      BorderHidesAnOccurrence(n, k);
      var h, j := n + n[k..], |n| - k;
      assert OccursAt(h, n, j) && j !in MatchIndices(h, n, 0);
    }
  }

  lemma WordBorderHidesAWord(n: string, k: nat) returns (h: string, j: nat)
    requires IsBorder(n, k) && !(IsWord(n[0]) && IsWord(n[|n| - k - 1]))
    ensures IsWordMatch(h, n, j) && j !in WordMatches(h, n)
  {
    h, j := n + n[k..], |n| - k;
    BorderHidesAnOccurrence(n, k);
  }

  /** The word search finds every word-bounded occurrence in every text if and
      only if the needle has no word border. */
  lemma WordSearchIsCompleteIff(n: string)
    ensures WordBorderless(n) <==>
              forall h: string, j: nat :: IsWordMatch(h, n, j) ==> j in WordMatches(h, n)
  {
    if WordBorderless(n) {
      forall h: string, j: nat | IsWordMatch(h, n, j) ensures j in WordMatches(h, n) {
        WordMatchesExact(h, n, j);
      }
    } else {
      var k :| 0 < k < |n| && IsBorder(n, k) && !(IsWord(n[0]) && IsWord(n[|n| - k - 1]));
      var h, j := WordBorderHidesAWord(n, k);
    }
  }

  // ------------------------------------- whether a word is found at all

  /** A border that can hide the only word from the yes-or-no question: the
      overlapping occurrence may be a word while the one that hides it is
      not. */
  predicate Hides(n: string, k: nat) {
    && IsBorder(n, k)
    && !(IsWord(n[0]) && IsWord(n[|n| - k - 1]))
    && (IsWord(n[0]) || (IsWord(n[|n| - 1]) && IsWord(n[k])))
  }

  predicate NeverHides(n: string) { forall k :: 0 < k < |n| ==> !Hides(n, k) }

  /** An occurrence is found, or overlaps an earlier one that is. */
  lemma {:induction false} FoundOrOverlapped(h: string, n: string, from: nat, j: nat) returns (i: nat)
    requires from <= j && OccursAt(h, n, j)
    ensures i in MatchIndices(h, n, from) && (i == j || i < j < i + |n|)
    decreases |h| + 1 - from
  {
    if !OccursAt(h, n, from) {
      i := FoundOrOverlapped(h, n, from + 1, j);
    } else if j == from || j < from + |n| {
      i := from;
    } else {
      i := FoundOrOverlapped(h, n, from + Max(1, |n|), j);
    }
  }

  /** If the border does not hide, the occurrence in the way is a word. */
  lemma OverlapIsAWord(h: string, n: string, i: nat, j: nat)
    requires OccursAt(h, n, i) && IsWordMatch(h, n, j) && i < j < i + |n| && !Hides(n, i + |n| - j)
    ensures IsWordMatch(h, n, i)
  {
    OverlapIsABorder(h, n, i, j);
    assert h[j..j + |n|][i + |n| - j] == h[i + |n|];
  }

  lemma WordIsFound(h: string, n: string, j: nat)
    requires NeverHides(n) && IsWordMatch(h, n, j)
    ensures HasWord(h, n)
  {
    var i := FoundOrOverlapped(h, n, 0, j);
    if i < j {
      OverlapIsAWord(h, n, i, j);
    }
    assert i in WordMatches(h, n);
  }

  /** No occurrence fits in what is left of the text. */
  lemma NothingLeft(h: string, n: string, from: nat)
    requires from + |n| > |h|
    ensures MatchIndices(h, n, from) == []
    decreases |h| + 1 - from
  {
    if from <= |h| {
      NothingLeft(h, n, from + 1);
    }
  }

  lemma OnlyMatchIsNoWord(h: string, n: string, i: nat)
    requires MatchIndices(h, n, 0) == [i] && !IsWordMatch(h, n, i)
    ensures !HasWord(h, n)
  {
    assert [i][1..] == [] && Filter(h, n, []) == [];
    assert Filter(h, n, [i]) == [];
  }

  lemma OccursBehind(c: char, text: string, n: string, i: nat)
    requires OccursAt(text, n, i)
    ensures OccursAt([c] + text, n, i + 1)
  {
    assert ([c] + text)[i + 1..i + 1 + |n|] == text[i..i + |n|];
  }

  /** The search stops after an occurrence that leaves no room for another. */
  lemma OneFound(h: string, n: string, i: nat)
    requires n != "" && OccursAt(h, n, i) && i + 2 * |n| > |h|
    requires i == 0 || (i == 1 && !OccursAt(h, n, 0))
    ensures MatchIndices(h, n, 0) == [i]
  {
    NothingLeft(h, n, i + |n|);
    assert MatchIndices(h, n, i) == [i];
  }

  /** Behind a character that makes the first occurrence part of a longer
      word, the second is hidden. */
  lemma HiddenOnTheLeft(n: string, k: nat) returns (h: string, j: nat)
    requires Hides(n, k) && IsWord(n[0])
    ensures IsWordMatch(h, n, j) && !HasWord(h, n)
  {
    var c, text := if n[0] == 'a' then 'b' else 'a', n + n[k..];
    h, j := [c] + text, 1 + |n| - k;
    BorderHidesAnOccurrence(n, k);
    OccursBehind(c, text, n, |n| - k);
    assert text[0..|n|] == n;
    OccursBehind(c, text, n, 0);
    assert !OccursAt(h, n, 0) by {
      assert h[0..|n|][0] == c;
    }
    OneFound(h, n, 1);
    OnlyMatchIsNoWord(h, n, 1);
  }

  lemma HiddenOnTheRight(n: string, k: nat) returns (h: string, j: nat)
    requires Hides(n, k) && !IsWord(n[0])
    ensures IsWordMatch(h, n, j) && !HasWord(h, n)
  {
    h, j := n + n[k..], |n| - k;
    BorderHidesAnOccurrence(n, k);
    assert h[0..|n|] == n && h[|n|] == n[k];
    OneFound(h, n, 0);
    OnlyMatchIsNoWord(h, n, 0);
  }

  /** Whether a text holds a word is answered right for every text if and only
      if no border of the needle hides. */
  lemma HasWordIsExactIff(n: string)
    ensures NeverHides(n) <==> forall h: string, j: nat :: IsWordMatch(h, n, j) ==> HasWord(h, n)
  {
    if NeverHides(n) {
      forall h: string, j: nat | IsWordMatch(h, n, j) ensures HasWord(h, n) {
        WordIsFound(h, n, j);
      }
    } else {
      var k :| 0 < k < |n| && Hides(n, k);
      var h, j;
      if IsWord(n[0]) {
        h, j := HiddenOnTheLeft(n, k);
      } else {
        h, j := HiddenOnTheRight(n, k);
      }
    }
  }

  /** A yes is always right. */
  lemma HasWordIsSound(h: string, n: string)
    requires HasWord(h, n)
    ensures IsWordMatch(h, n, WordMatches(h, n)[0])
  {
    assert WordMatches(h, n)[0] in WordMatches(h, n);
  }

  /** A word-bounded occurrence that overlaps an earlier one is missed. */
  lemma OverlappingWordIsMissed()
    ensures IsWordMatch("a a a", "a a", 2) && 2 !in WordMatches("a a a", "a a")
  {
    var h, n := "a a a", "a a";
    assert h[0..3] == n && h[2..5] == n;
    assert OccursAt(h, n, 0);
    assert forall i :: i in MatchIndices(h, n, 3) ==> i >= 3;
  }

  // ------------------------------------------------------- the date token

  predicate IsTokenChar(c: char) {
    IsDigit(c) || c == '-' || c == ':' || c == 'T' || c == 'Z' || c == '+' || c == '.'
  }

  predicate IsTrailing(c: char) { c == '.' || c == ':' || c == '-' || c == '+' }

  predicate DigitAt(s: string, i: nat) { i < |s| && IsDigit(s[i]) }

  predicate TokenCharAt(s: string, i: nat) { i < |s| && IsTokenChar(s[i]) }

  predicate TrailingAt(s: string, i: nat) { i < |s| && IsTrailing(s[i]) }

  function SkipToDigit(s: string, from: nat): (r: nat)
    requires from <= |s|
    ensures from <= r <= |s|
    ensures forall i :: from <= i < r ==> !DigitAt(s, i)
    ensures r < |s| ==> DigitAt(s, r)
    decreases |s| - from
  {
    if from == |s| || IsDigit(s[from]) then from else SkipToDigit(s, from + 1)
  }

  function TokenEnd(s: string, from: nat): (r: nat)
    requires from <= |s|
    ensures from <= r <= |s|
    ensures forall i :: from <= i < r ==> TokenCharAt(s, i)
    ensures r < |s| ==> !TokenCharAt(s, r)
    decreases |s| - from
  {
    if from == |s| || !IsTokenChar(s[from]) then from else TokenEnd(s, from + 1)
  }

  function TrimmedEnd(s: string, lo: nat, hi: nat): (r: nat)
    requires lo <= hi <= |s|
    ensures lo <= r <= hi
    ensures r > lo ==> !TrailingAt(s, r - 1)
    ensures forall i :: r <= i < hi ==> TrailingAt(s, i)
  {
    if hi == lo || !IsTrailing(s[hi - 1]) then hi else TrimmedEnd(s, lo, hi - 1)
  }

  /** Begins with `YYYY-MM-DD`. */
  predicate DateLed(s: string) {
    && |s| >= 10 && s[4] == '-' && s[7] == '-'
    && IsDigit(s[0]) && IsDigit(s[1]) && IsDigit(s[2]) && IsDigit(s[3])
    && IsDigit(s[5]) && IsDigit(s[6]) && IsDigit(s[8]) && IsDigit(s[9])
  }

  /** The first digit-led token of `tail`, before and after trimming. */
  function RawToken(tail: string): string {
    var lo := SkipToDigit(tail, 0);
    tail[lo..TokenEnd(tail, lo)]
  }

  function Token(tail: string): string {
    var lo := SkipToDigit(tail, 0);
    tail[lo..TrimmedEnd(tail, lo, TokenEnd(tail, lo))]
  }

  function ResetAfter(tail: string): Option<string> {
    if DateLed(Token(tail)) then Some(Token(tail)) else None
  }

  /** Trimming the sentence punctuation never decides whether the token is a
      date. */
  lemma TrimmingKeepsTheDate(tail: string)
    ensures DateLed(Token(tail)) <==> DateLed(RawToken(tail))
  {
    var lo := SkipToDigit(tail, 0);
    var hi := TokenEnd(tail, lo);
    var cut := TrimmedEnd(tail, lo, hi);
    if DateLed(RawToken(tail)) {
      assert IsDigit(RawToken(tail)[9]);
      assert tail[lo + 9] == RawToken(tail)[9];
      assert !TrailingAt(tail, lo + 9);
      assert cut >= lo + 10;
    }
    if cut >= lo + 10 {
      assert forall i :: 0 <= i < 10 ==> Token(tail)[i] == RawToken(tail)[i];
    }
  }

  /** What a reported timestamp is: a contiguous piece of the tail, led by the
      tail's first digit, beginning with a date, not ending in punctuation. */
  lemma ResetAfterIsAPiece(tail: string)
    ensures ResetAfter(tail).Some? <==> DateLed(RawToken(tail))
    ensures ResetAfter(tail).Some? ==>
              var t := ResetAfter(tail).value;
              var lo := SkipToDigit(tail, 0);
              && lo + |t| <= |tail| && t == tail[lo..lo + |t|]
              && DateLed(t) && !IsTrailing(t[|t| - 1])
  {
    TrimmingKeepsTheDate(tail);
  }

  /** The characters an instant is written with, and those that end a sentence
      but never an instant. */
  predicate OfAnInstant(c: char) {
    '0' <= c <= '9' || c == '-' || c == ':' || c == 'T' || c == 'Z' || c == '+' || c == '.'
  }

  predicate OfASentence(c: char) { c == '.' || c == ':' || c == '-' || c == '+' }

  /** Where the token is, and what of it is kept. */
  lemma TokenBetween(tail: string, lo: nat, hi: nat, end: nat)
    requires lo < hi <= end <= |tail| && DigitAt(tail, lo) && !TrailingAt(tail, hi - 1)
    requires forall i :: 0 <= i < lo ==> !DigitAt(tail, i)
    requires forall i :: lo <= i < end ==> TokenCharAt(tail, i)
    requires forall i :: hi <= i < end ==> TrailingAt(tail, i)
    requires end < |tail| ==> !TokenCharAt(tail, end)
    ensures Token(tail) == tail[lo..hi]
  {
    SkipIsUnique(tail, 0, lo);
    TokenEndIsUnique(tail, lo, end);
    TrimmedEndIsUnique(tail, lo, hi, end);
  }

  /** Every timestamp is read back whole: whatever text without digits comes
      before it, punctuation right after it, and other text after that. */
  lemma StampIsReadBack(gap: string, stamp: string, marks: string, rest: string)
    requires DateLed(stamp) && !OfASentence(stamp[|stamp| - 1])
    requires forall i :: 0 <= i < |gap| ==> !IsDigit(gap[i])
    requires forall i :: 0 <= i < |stamp| ==> OfAnInstant(stamp[i])
    requires forall i :: 0 <= i < |marks| ==> OfASentence(marks[i])
    requires rest != "" ==> !OfAnInstant(rest[0])
    ensures ResetAfter(gap + (stamp + (marks + rest))) == Some(stamp)
  {
    var tail, lo := gap + (stamp + (marks + rest)), |gap|;
    var hi, end := lo + |stamp|, lo + |stamp| + |marks|;
    assert tail[lo..] == stamp + (marks + rest) && tail[hi..] == marks + rest && tail[end..] == rest;
    PlacesOf(tail, gap, stamp, marks, rest);
    TokenBetween(tail, lo, hi, end);
    assert tail[lo..hi] == stamp;
  }

  lemma PlacesOf(tail: string, gap: string, stamp: string, marks: string, rest: string)
    requires var lo := |gap|;
             var hi, end := lo + |stamp|, lo + |stamp| + |marks|;
             && end <= |tail| && tail[..lo] == gap && tail[lo..hi] == stamp
             && tail[hi..end] == marks && tail[end..] == rest
    requires DateLed(stamp) && !OfASentence(stamp[|stamp| - 1])
    requires forall i :: 0 <= i < |gap| ==> !IsDigit(gap[i])
    requires forall i :: 0 <= i < |stamp| ==> OfAnInstant(stamp[i])
    requires forall i :: 0 <= i < |marks| ==> OfASentence(marks[i])
    requires rest != "" ==> !OfAnInstant(rest[0])
    ensures var lo := |gap|;
            var hi, end := lo + |stamp|, lo + |stamp| + |marks|;
            && DigitAt(tail, lo) && !TrailingAt(tail, hi - 1)
            && (forall i :: 0 <= i < lo ==> !DigitAt(tail, i))
            && (forall i :: lo <= i < end ==> TokenCharAt(tail, i))
            && (forall i :: hi <= i < end ==> TrailingAt(tail, i))
            && (end < |tail| ==> !TokenCharAt(tail, end))
  {
    var lo := |gap|;
    var hi, end := lo + |stamp|, lo + |stamp| + |marks|;
    forall i | 0 <= i < lo ensures !DigitAt(tail, i) {
      assert gap[i] == tail[i];
    }
    forall i | lo <= i < hi ensures TokenCharAt(tail, i) {
      assert stamp[i - lo] == tail[i] && OfAnInstant(stamp[i - lo]);
    }
    forall i | hi <= i < end ensures TrailingAt(tail, i) && TokenCharAt(tail, i) {
      assert marks[i - hi] == tail[i] && OfASentence(marks[i - hi]);
    }
    assert tail[lo..hi][0] == tail[lo] && tail[lo..hi][|stamp| - 1] == tail[hi - 1];
    assert end < |tail| ==> tail[end..][0] == tail[end];
  }

  lemma {:induction false} TrimmedEndIsUnique(s: string, lo: nat, r: nat, hi: nat)
    requires lo < r <= hi <= |s| && !TrailingAt(s, r - 1) && forall i :: r <= i < hi ==> TrailingAt(s, i)
    ensures TrimmedEnd(s, lo, hi) == r
  {
    if r < hi {
      assert TrailingAt(s, hi - 1);
      TrimmedEndIsUnique(s, lo, r, hi - 1);
    }
  }

  // ---------------------------------------------------- the reset timestamp

  predicate IsMarker(lower: string, at: nat) {
    IsWordMatch(lower, "reset", at) || IsWordMatch(lower, "resets", at) || IsWordMatch(lower, "until", at)
  }

  /** A needle whose first two characters do not come again, and that ends in
      its first character only inside a word. */
  predicate IsPlain(n: string) {
    && |n| >= 2
    && (forall i :: 0 < i < |n| - 1 ==> n[i] != n[0] || n[i + 1] != n[1])
    && (n[|n| - 1] == n[0] ==> IsWord(n[0]) && IsWord(n[|n| - 2]))
  }

  lemma BorderChar(n: string, k: nat, i: nat)
    requires IsBorder(n, k) && i < k
    ensures n[|n| - k + i] == n[i]
  {
    assert n[..k][i] == n[|n| - k..][i];
  }

  lemma PlainIsWordBorderless(n: string)
    requires IsPlain(n)
    ensures WordBorderless(n)
  {
    forall k | 0 < k < |n| && IsBorder(n, k) ensures k == 1 && n[|n| - 1] == n[0] {
      BorderChar(n, k, 0);
      BorderChar(n, k, Min(k - 1, 1));
    }
  }

  lemma MarkersAreWordBorderless()
    ensures WordBorderless("reset") && WordBorderless("resets") && WordBorderless("until")
    ensures WordBorderless(BUDGET_EXCEEDED_MARKER)
  {
    PlainIsWordBorderless("reset");
    PlainIsWordBorderless("resets");
    PlainIsWordBorderless("until");
    PlainIsWordBorderless(BUDGET_EXCEEDED_MARKER);
  }

  lemma SameEndsAreABorder(n: string)
    requires |n| >= 2 && n[0] == n[|n| - 1]
    ensures !Borderless(n)
  {
    assert n[..1] == n[|n| - 1..];
    assert IsBorder(n, 1);
  }

  /** Two needles of the message classifier that do have a border, and are
      searched for exactly all the same. */
  lemma BorderedNeedlesAreWordBorderless()
    ensures WordBorderless("engine offline") && !Borderless("engine offline")
    ensures WordBorderless("engine is unavailable") && !Borderless("engine is unavailable")
  {
    EngineOffline();
    EngineIsUnavailable();
  }

  lemma EngineOffline()
    ensures WordBorderless("engine offline") && !Borderless("engine offline")
  {
    PlainIsWordBorderless("engine offline");
    SameEndsAreABorder("engine offline");
  }

  lemma EngineIsUnavailable()
    ensures WordBorderless("engine is unavailable") && !Borderless("engine is unavailable")
  {
    PlainIsWordBorderless("engine is unavailable");
    SameEndsAreABorder("engine is unavailable");
  }

  method SortedUnion(a: seq<nat>, b: seq<nat>, c: seq<nat>) returns (s: seq<nat>)
    ensures Ascending(s) && forall y :: y in s <==> y in a || y in b || y in c
  {
    var all := a + b + c;
    s := [];
    for i := 0 to |all|
      invariant Ascending(s) && forall y :: y in s <==> y in all[..i]
    {
      s := Insert(s, all[i]);
      assert all[..i + 1] == all[..i] + [all[i]];
    }
    assert all[..|all|] == all;
  }

  /** The reset read from position `at` of a line on. */
  function ResetAt(line: string, at: nat): Option<string> {
    if at <= |line| then ResetAfter(line[at..]) else None
  }

  /** `at` is the first marker with a reset after it, and `r` that reset. */
  predicate FirstReset(line: string, at: nat, r: Option<string>) {
    && IsMarker(Lower(line), at) && r.Some? && r == ResetAt(line, at)
    && forall e: nat :: e < at && IsMarker(Lower(line), e) ==> ResetAt(line, e).None?
  }

  ghost predicate AreMarkers(line: string, markers: seq<nat>) {
    Ascending(markers) && forall at: nat :: at in markers <==> IsMarker(Lower(line), at)
  }

  lemma FirstIsFirst(line: string, markers: seq<nat>, i: nat)
    requires AreMarkers(line, markers) && i < |markers| && ResetAt(line, markers[i]).Some?
    requires forall j :: 0 <= j < i ==> ResetAt(line, markers[j]).None?
    ensures FirstReset(line, markers[i], ResetAt(line, markers[i]))
  {
    assert markers[i] in markers;
    forall e: nat | e < markers[i] && IsMarker(Lower(line), e) ensures ResetAt(line, e).None? {
      assert e in markers;
      var j :| 0 <= j < |markers| && markers[j] == e;
    }
  }

  lemma ResetIffDate(line: string, at: nat)
    requires at <= |line|
    ensures ResetAt(line, at).Some? <==> DateLed(RawToken(line[at..]))
  {
    ResetAfterIsAPiece(line[at..]);
  }

  lemma NoneIffNoDate(line: string, markers: seq<nat>)
    requires AreMarkers(line, markers)
    ensures (forall j :: 0 <= j < |markers| ==> ResetAt(line, markers[j]).None?)
       <==> (forall at: nat :: IsMarker(Lower(line), at) ==> !DateLed(RawToken(line[at..])))
  {
    forall at: nat | IsMarker(Lower(line), at)
      ensures at in markers && (ResetAt(line, at).Some? <==> DateLed(RawToken(line[at..])))
    {
      ResetIffDate(line, at);
    }
    forall j | 0 <= j < |markers| ensures IsMarker(Lower(line), markers[j]) {
      assert markers[j] in markers;
    }
  }

  /** The first of the markers with a reset after it, if any. */
  method TryMarkers(line: string, markers: seq<nat>) returns (r: Option<string>, ghost i: nat)
    ensures r.None? <==> forall j :: 0 <= j < |markers| ==> ResetAt(line, markers[j]).None?
    ensures r.Some? ==> i < |markers| && r == ResetAt(line, markers[i])
    ensures r.Some? ==> forall j :: 0 <= j < i ==> ResetAt(line, markers[j]).None?
  {
    r, i := None, 0;
    for k := 0 to |markers|
      invariant r.None? && forall j :: 0 <= j < k ==> ResetAt(line, markers[j]).None?
    {
      r := ResetAt(line, markers[k]);
      if r.Some? {
        i := k;
        return;
      }
    }
  }

  /** Every marker is tried in order; the first whose first digit-led token is
      a date decides, and the answer is None exactly when none has one. */
  method ExtractResetTimestamp(line: string) returns (r: Option<string>)
    ensures r.None? <==> forall at: nat :: IsMarker(Lower(line), at) ==> !DateLed(RawToken(line[at..]))
    ensures r.Some? ==> exists at: nat :: FirstReset(line, at, r)
  {
    var markers := Markers(Lower(line));
    ghost var i;
    r, i := TryMarkers(line, markers);
    NoneIffNoDate(line, markers);
    if r.Some? {
      FirstIsFirst(line, markers, i);
    }
  }

  method Markers(lower: string) returns (markers: seq<nat>)
    ensures Ascending(markers) && forall at: nat :: at in markers <==> IsMarker(lower, at)
  {
    MarkersAreWordBorderless();
    markers := SortedUnion(WordMatches(lower, "reset"), WordMatches(lower, "resets"), WordMatches(lower, "until"));
    forall at: nat ensures at in markers <==> IsMarker(lower, at) {
      WordMatchesExact(lower, "reset", at);
      WordMatchesExact(lower, "resets", at);
      WordMatchesExact(lower, "until", at);
    }
  }

  // -------------------------------------------------- the budget refusal

  const BUDGET_EXCEEDED_MARKER := "budget_exceeded:"

  predicate IsSpace(c: char) { c == ' ' || c == '\t' || c == '\r' || c == '\n' }

  function LineEnd(s: string, from: nat): (r: nat)
    requires from <= |s|
    ensures IsLine(s, from, r)
    decreases |s| - from
  {
    if from == |s| || s[from] == '\n' then from else LineEnd(s, from + 1)
  }

  /** The text from `lo` to `end` is the rest of a line. */
  predicate IsLine(s: string, lo: nat, end: nat) {
    lo <= end <= |s| && (end == |s| || BreakAt(s, end)) && forall i :: lo <= i < end ==> !BreakAt(s, i)
  }

  predicate SpaceAt(s: string, i: nat) { i < |s| && IsSpace(s[i]) }

  predicate AllSpace(s: string, lo: nat, hi: nat) { forall i :: lo <= i < hi ==> SpaceAt(s, i) }

  predicate BreakAt(s: string, i: nat) { i < |s| && s[i] == '\n' }

  function TrimLeft(s: string, lo: nat, hi: nat): (r: nat)
    requires lo <= hi <= |s|
    ensures lo <= r <= hi && AllSpace(s, lo, r) && (r < hi ==> !IsSpace(s[r]))
    decreases hi - lo
  {
    if lo == hi || !IsSpace(s[lo]) then lo else TrimLeft(s, lo + 1, hi)
  }

  function TrimRight(s: string, lo: nat, hi: nat): (r: nat)
    requires lo <= hi <= |s|
    ensures lo <= r <= hi && AllSpace(s, r, hi) && (r > lo ==> !IsSpace(s[r - 1]))
  {
    if hi == lo || !IsSpace(s[hi - 1]) then hi else TrimRight(s, lo, hi - 1)
  }

  /** The line the code looks at: the rest of the marker's line, trimmed. */
  function MarkersLine(message: string, lo: nat): (r: (nat, nat))
    requires lo <= |message|
    ensures var end := LineEnd(message, lo);
            && lo <= r.0 <= r.1 <= end && AllSpace(message, lo, r.0) && AllSpace(message, r.1, end)
  {
    var end := LineEnd(message, lo);
    var left := TrimLeft(message, lo, end);
    (left, TrimRight(message, left, end))
  }

  /** `t` is `message[a..b]`, a date after a marker at `i` on the same line. */
  predicate DateOnMarkersLine(message: string, t: string, i: nat, a: nat, b: nat) {
    && IsWordMatch(Lower(message), BUDGET_EXCEEDED_MARKER, i)
    && i + |BUDGET_EXCEEDED_MARKER| <= a <= b <= |message| && t == message[a..b] && DateLed(t)
    && forall k :: i + |BUDGET_EXCEEDED_MARKER| <= k < b ==> !BreakAt(message, k)
  }

  lemma PieceOfPiece(s: string, lo: nat, hi: nat, a: nat, b: nat)
    requires lo <= hi <= |s| && a <= b <= hi - lo
    ensures s[lo..hi][a..b] == s[lo + a..lo + b]
  {
    assert forall i :: 0 <= i < b - a ==> s[lo..hi][a..b][i] == s[lo + a..lo + b][i];
  }

  // ------------------------------------ the same, in terms of the message

  /** A word inside a slice whose edges break words is a word of the whole. */
  lemma WordInSlice(h: string, n: string, left: nat, right: nat, at: nat)
    requires left <= right <= |h| && n != ""
    requires (left == 0 || !IsWord(h[left - 1])) && (right == |h| || !IsWord(h[right]))
    ensures IsWordMatch(h[left..right], n, at) <==> left + at + |n| <= right && IsWordMatch(h, n, left + at)
  {
    if left + at + |n| <= right {
      PieceOfPiece(h, left, right, at, at + |n|);
    }
  }

  /** A word of letters does not reach into the spaces around it. */
  lemma WordAvoidsGaps(h: string, n: string, lo: nat, left: nat, right: nat, end: nat, x: nat)
    requires lo <= left <= right <= end <= |h| && n != "" && (forall i :: 0 <= i < |n| ==> IsWord(n[i]))
    requires Gap(h, lo, left) && Gap(h, right, end) && (end == |h| || !IsWord(h[end]))
    requires lo <= x < end && OccursAt(h, n, x)
    ensures left <= x && x + |n| <= right
  {
    NeedleChar(h, n, x, 0);
    NeedleChar(h, n, x, Min(Max(right - x, 0), |n| - 1));
    assert lo <= x < left || right <= x < end ==> GapAt(h, x);
    assert right < end ==> GapAt(h, right);
  }

  predicate GapAt(h: string, i: nat) { i < |h| && !IsWord(h[i]) }

  /** No part of a word between `lo` and `hi`. */
  predicate Gap(h: string, lo: nat, hi: nat) { forall i :: lo <= i < hi ==> GapAt(h, i) }

  lemma LowerKeepsGaps(s: string, lo: nat, hi: nat)
    requires lo <= hi <= |s| && AllSpace(s, lo, hi)
    ensures Gap(Lower(s), lo, hi)
  {
    forall i | lo <= i < hi ensures GapAt(Lower(s), i) {
      assert SpaceAt(s, i) && Lower(s)[i] == LowerChar(s[i]);
    }
  }

  lemma LowerKeepsNonWords(s: string, i: nat)
    requires i < |s| && !IsWord(s[i])
    ensures !IsWord(Lower(s)[i])
  {
    assert Lower(s)[i] == LowerChar(s[i]);
  }

  lemma NeedleChar(h: string, n: string, x: nat, i: nat)
    requires OccursAt(h, n, x) && i < |n|
    ensures h[x + i] == n[i]
  {
    assert h[x..x + |n|][i] == h[x + i];
  }

  lemma SkipIsUnique(s: string, from: nat, r: nat)
    requires from <= r <= |s| && (forall i :: from <= i < r ==> !DigitAt(s, i)) && (r < |s| ==> DigitAt(s, r))
    ensures SkipToDigit(s, from) == r
  {
    assert DigitAt(s, r) <==> r < |s|;
    assert DigitAt(s, SkipToDigit(s, from)) <==> SkipToDigit(s, from) < |s|;
  }

  lemma TokenEndIsUnique(s: string, from: nat, r: nat)
    requires from <= r <= |s| && (forall i :: from <= i < r ==> TokenCharAt(s, i)) && (r < |s| ==> !TokenCharAt(s, r))
    ensures TokenEnd(s, from) == r
  {
    assert !TokenCharAt(s, r) && !TokenCharAt(s, TokenEnd(s, from));
  }

  lemma {:induction false} TrimmedEndInPrefix(a: string, b: string, lo: nat, hi: nat)
    requires lo <= hi <= |a|
    ensures TrimmedEnd(a + b, lo, hi) == TrimmedEnd(a, lo, hi)
  {
    if lo < hi && IsTrailing(a[hi - 1]) {
      TrimmedEndInPrefix(a, b, lo, hi - 1);
    }
  }

  lemma NoDigitInSpace(a: string, b: string)
    requires AllSpace(b, 0, |b|) && SkipToDigit(a, 0) == |a|
    ensures SkipToDigit(a + b, 0) == |a + b|
  {
    forall i | 0 <= i < |a + b| ensures !DigitAt(a + b, i) {
      assert i < |a| ==> !DigitAt(a, i);
      assert i >= |a| ==> SpaceAt(b, i - |a|);
    }
    SkipIsUnique(a + b, 0, |a + b|);
  }

  lemma TokenStopsAtSpace(a: string, b: string, lo: nat)
    requires AllSpace(b, 0, |b|) && lo == SkipToDigit(a, 0) < |a|
    ensures SkipToDigit(a + b, 0) == lo && TokenEnd(a + b, lo) == TokenEnd(a, lo)
  {
    var end := TokenEnd(a, lo);
    assert |b| > 0 ==> SpaceAt(b, 0);
    forall i | 0 <= i < lo ensures !DigitAt(a + b, i) {
      assert !DigitAt(a, i);
    }
    SkipIsUnique(a + b, 0, lo);
    forall i | lo <= i < end ensures TokenCharAt(a + b, i) {
      assert TokenCharAt(a, i);
    }
    assert end < |a| ==> !TokenCharAt(a, end);
    TokenEndIsUnique(a + b, lo, end);
  }

  /** Trailing space does not change the first token. */
  lemma TrailingSpaceIsIgnored(a: string, b: string)
    requires AllSpace(b, 0, |b|)
    ensures RawToken(a + b) == RawToken(a) && Token(a + b) == Token(a)
  {
    var lo := SkipToDigit(a, 0);
    if lo == |a| {
      NoDigitInSpace(a, b);
    } else {
      TokenStopsAtSpace(a, b, lo);
      TrimmedEndInPrefix(a, b, lo, TokenEnd(a, lo));
    }
  }

  /** The places of a text where a marker word begins. */
  function MarkersOf(text: string): set<nat> { set x | 0 <= x < |text| && IsMarker(Lower(text), x) }

  /** What the marker at `x`, if there is one, is followed by up to `end`. */
  function DateAt(text: string, marks: set<nat>, x: nat, end: nat): Option<string>
    requires x <= end <= |text|
  {
    if x in marks then ResetAfter(text[x..end]) else None
  }

  /** The first date after a marker, from `lo` on up to `end`. */
  function FirstDate(text: string, marks: set<nat>, lo: nat, end: nat): Option<string>
    requires lo <= end <= |text|
    decreases end - lo
  {
    if DateAt(text, marks, lo, end).Some? then DateAt(text, marks, lo, end)
    else if lo == end then None
    else FirstDate(text, marks, lo + 1, end)
  }

  /** A place of the line where a marker word begins and the first token after
      it that a digit leads begins with a date. */
  predicate Dated(text: string, x: nat, end: nat) {
    x < end <= |text| && IsMarker(Lower(text), x) && DateLed(RawToken(text[x..end]))
  }

  lemma DateAtIff(text: string, x: nat, end: nat)
    requires x <= end <= |text|
    ensures DateAt(text, MarkersOf(text), x, end).Some? <==> Dated(text, x, end)
  {
    ResetAfterIsAPiece(text[x..end]);
  }

  /** `x` is the first place from `lo` on with a date. */
  predicate IsFirstDate(text: string, marks: set<nat>, lo: nat, x: nat, end: nat) {
    && lo <= x <= end <= |text| && DateAt(text, marks, x, end).Some?
    && forall y :: lo <= y < x ==> DateAt(text, marks, y, end).None?
  }

  lemma {:induction false} FirstDateAt(text: string, marks: set<nat>, lo: nat, x: nat, end: nat)
    requires IsFirstDate(text, marks, lo, x, end)
    ensures FirstDate(text, marks, lo, end) == DateAt(text, marks, x, end)
    decreases x - lo
  {
    if lo < x {
      FirstDateAt(text, marks, lo + 1, x, end);
    }
  }

  lemma {:induction false} NoFirstDate(text: string, marks: set<nat>, lo: nat, end: nat)
    requires lo <= end <= |text| && forall y :: lo <= y <= end ==> DateAt(text, marks, y, end).None?
    ensures FirstDate(text, marks, lo, end).None?
    decreases end - lo
  {
    if lo < end {
      NoFirstDate(text, marks, lo + 1, end);
    }
  }

  lemma {:induction false} FirstDateIsFirst(text: string, marks: set<nat>, lo: nat, end: nat) returns (x: nat)
    requires lo <= end <= |text| && FirstDate(text, marks, lo, end).Some?
    ensures IsFirstDate(text, marks, lo, x, end) && FirstDate(text, marks, lo, end) == DateAt(text, marks, x, end)
    decreases end - lo
  {
    if DateAt(text, marks, lo, end).Some? {
      x := lo;
    } else {
      x := FirstDateIsFirst(text, marks, lo + 1, end);
      FirstFromOneEarlier(text, marks, lo, x, end);
    }
  }

  lemma FirstFromOneEarlier(text: string, marks: set<nat>, lo: nat, x: nat, end: nat)
    requires IsFirstDate(text, marks, lo + 1, x, end) && DateAt(text, marks, lo, end).None?
    ensures IsFirstDate(text, marks, lo, x, end)
  {
  }

  /** The first date of a line, in terms of the line: None exactly when no
      marker on it is followed by a date, else the trimmed token after the
      first marker that is. */
  lemma FirstDateIff(text: string, lo: nat, end: nat) returns (x: nat)
    requires lo <= end <= |text|
    ensures var r := FirstDate(text, MarkersOf(text), lo, end);
            && (r.None? <==> forall y: nat :: lo <= y ==> !Dated(text, y, end))
            && (r.Some? ==>
                  && lo <= x < end && Dated(text, x, end) && r == Some(Token(text[x..end]))
                  && forall y :: lo <= y < x ==> !Dated(text, y, end))
  {
    x := lo;
    var marks := MarkersOf(text);
    forall y | lo <= y <= end ensures DateAt(text, marks, y, end).Some? <==> Dated(text, y, end) {
      DateAtIff(text, y, end);
    }
    if FirstDate(text, marks, lo, end).Some? {
      x := FirstDateIsFirst(text, marks, lo, end);
    } else if y :| lo <= y <= end && DateAt(text, marks, y, end).Some? {
      DatedIsFound(text, marks, lo, y, end);
    }
  }

  lemma {:induction false} DatedIsFound(text: string, marks: set<nat>, lo: nat, y: nat, end: nat)
    requires lo <= y <= end <= |text| && DateAt(text, marks, y, end).Some?
    ensures FirstDate(text, marks, lo, end).Some?
    decreases y - lo
  {
    if lo < y {
      DatedIsFound(text, marks, lo + 1, y, end);
    }
  }

  /** The trimmed line `left` to `right` within the line `lo` to `end`, which
      follows a character that is no part of a word. */
  predicate Trimmed(message: string, lo: nat, left: nat, right: nat, end: nat) {
    && 0 < lo <= left <= right <= end && IsLine(message, lo, end) && !IsWord(message[lo - 1])
    && AllSpace(message, lo, left) && AllSpace(message, right, end)
  }

  lemma LowerOfSlice(s: string, left: nat, right: nat)
    requires left <= right <= |s|
    ensures Lower(s[left..right]) == Lower(s)[left..right]
  {
  }

  /** The markers of the trimmed line are those of the line. */
  lemma MarkersOfTheLine(message: string, lo: nat, left: nat, right: nat, end: nat, x: nat)
    requires Trimmed(message, lo, left, right, end) && lo <= x < end
    ensures IsMarker(Lower(message), x) <==> left <= x <= right && IsMarker(Lower(message[left..right]), x - left)
  {
    var h := Lower(message);
    LowerOfSlice(message, left, right);
    LowerKeepsGaps(message, lo, left);
    LowerKeepsGaps(message, right, end);
    LowerKeepsNonWords(message, lo - 1);
    if end < |message| {
      LowerKeepsNonWords(message, end);
    }
    MarkerOfTheLine(h, "reset", lo, left, right, end, x);
    MarkerOfTheLine(h, "resets", lo, left, right, end, x);
    MarkerOfTheLine(h, "until", lo, left, right, end, x);
  }

  lemma MarkerOfTheLine(h: string, n: string, lo: nat, left: nat, right: nat, end: nat, x: nat)
    requires 0 < lo <= left <= right <= end <= |h| && n != "" && (forall i :: 0 <= i < |n| ==> IsWord(n[i]))
    requires !IsWord(h[lo - 1]) && (end == |h| || !IsWord(h[end])) && Gap(h, lo, left) && Gap(h, right, end)
    requires lo <= x < end
    ensures IsWordMatch(h, n, x) <==> left <= x <= right && IsWordMatch(h[left..right], n, x - left)
  {
    if OccursAt(h, n, x) {
      WordAvoidsGaps(h, n, lo, left, right, end, x);
    }
    if left <= x <= right {
      assert lo < left ==> GapAt(h, left - 1);
      assert right < end ==> GapAt(h, right);
      WordInSlice(h, n, left, right, x - left);
    }
  }

  /** And so are their tokens. */
  lemma TokensOfTheLine(message: string, lo: nat, left: nat, right: nat, end: nat, x: nat)
    requires Trimmed(message, lo, left, right, end) && left <= x <= right
    ensures RawToken(message[x..end]) == RawToken(message[left..right][x - left..])
    ensures Token(message[x..end]) == Token(message[left..right][x - left..])
  {
    var a, b := message[left..right][x - left..], message[right..end];
    PieceOfPiece(message, left, right, x - left, right - left);
    assert a == message[x..right] && message[x..end] == a + b;
    forall i | 0 <= i < |b| ensures SpaceAt(b, i) {
      assert SpaceAt(message, right + i);
    }
    TrailingSpaceIsIgnored(a, b);
  }

  lemma MarkerIsInside(lower: string, at: nat)
    requires IsMarker(lower, at)
    ensures at < |lower| && IsWord(lower[at])
  {
    var n := if OccursAt(lower, "until", at) then "until" else "reset";
    assert OccursAt(lower, "resets", at) ==> lower[at..at + 6][..5] == lower[at..at + 5] && "resets"[..5] == "reset";
    NeedleChar(lower, n, at, 0);
  }

  /** The marks of the line, moved to `left`, are those from `lo` to `end`. */
  ghost predicate Moved(marks: set<nat>, lineMarks: set<nat>, lo: nat, left: nat, right: nat, end: nat) {
    forall x: nat :: lo <= x <= end ==> (x in marks <==> left <= x <= right && x - left in lineMarks)
  }

  lemma MarkersMove(message: string, lo: nat, left: nat, right: nat, end: nat)
    requires Trimmed(message, lo, left, right, end)
    ensures Moved(MarkersOf(message), MarkersOf(message[left..right]), lo, left, right, end)
  {
    var line := message[left..right];
    forall x: nat | lo <= x <= end
      ensures x in MarkersOf(message) <==> left <= x <= right && x - left in MarkersOf(line)
    {
      MarkerMoves(message, lo, left, right, end, x);
    }
  }

  lemma MarkerMoves(message: string, lo: nat, left: nat, right: nat, end: nat, x: nat)
    requires Trimmed(message, lo, left, right, end) && lo <= x <= end
    ensures x in MarkersOf(message) <==> left <= x <= right && x - left in MarkersOf(message[left..right])
  {
    if x < end {
      MarkersOfTheLine(message, lo, left, right, end, x);
    } else {
      NoMarkerAtTheEnd(message, end);
    }
  }

  lemma NoMarkerAtTheEnd(message: string, end: nat)
    requires end == |message| || BreakAt(message, end)
    ensures end !in MarkersOf(message)
  {
    if end < |message| {
      LowerKeepsNonWords(message, end);
      if IsMarker(Lower(message), end) {
        MarkerIsInside(Lower(message), end);
      }
    }
  }

  /** So the dates are the same, place by place. */
  lemma DateMoves(message: string, marks: set<nat>, lineMarks: set<nat>,
                  lo: nat, left: nat, right: nat, end: nat, x: nat)
    requires Trimmed(message, lo, left, right, end) && Moved(marks, lineMarks, lo, left, right, end)
    requires left <= x <= right
    ensures DateAt(message, marks, x, end) == DateAt(message[left..right], lineMarks, x - left, right - left)
  {
    var line, n := message[left..right], right - left;
    TokensOfTheLine(message, lo, left, right, end, x);
    assert line[x - left..n] == line[x - left..];
  }

  lemma {:induction false} DatesAfterTheLine(message: string, marks: set<nat>, right: nat, end: nat)
    requires right <= end <= |message| && forall x: nat :: right <= x <= end ==> x !in marks
    ensures FirstDate(message, marks, right, end).None?
    decreases end - right
  {
    if right < end {
      DatesAfterTheLine(message, marks, right + 1, end);
    }
  }

  lemma {:induction false} DatesOfTheLine(message: string, marks: set<nat>, lineMarks: set<nat>,
                                          lo: nat, left: nat, right: nat, end: nat, x: nat)
    requires Trimmed(message, lo, left, right, end) && Moved(marks, lineMarks, lo, left, right, end)
    requires left <= x <= right
    ensures FirstDate(message, marks, x, end) == FirstDate(message[left..right], lineMarks, x - left, right - left)
    decreases right - x
  {
    DateMoves(message, marks, lineMarks, lo, left, right, end, x);
    if x < right {
      DatesOfTheLine(message, marks, lineMarks, lo, left, right, end, x + 1);
    } else if x < end {
      DatesAfterTheLine(message, marks, x + 1, end);
    }
  }

  lemma {:induction false} DatesBeforeTheLine(message: string, marks: set<nat>, lo: nat, left: nat, end: nat)
    requires lo <= left <= end <= |message| && forall x: nat :: lo <= x < left ==> x !in marks
    ensures FirstDate(message, marks, lo, end) == FirstDate(message, marks, left, end)
    decreases left - lo
  {
    if lo < left {
      DatesBeforeTheLine(message, marks, lo + 1, left, end);
    }
  }

  /** What is read from the trimmed line is what the line carries. */
  lemma LineReset(message: string, lo: nat, left: nat, right: nat, end: nat)
    requires Trimmed(message, lo, left, right, end)
    ensures FirstDate(message, MarkersOf(message), lo, end) == LineDate(message[left..right])
  {
    var marks, lineMarks := MarkersOf(message), MarkersOf(message[left..right]);
    MarkersMove(message, lo, left, right, end);
    DatesBeforeTheLine(message, marks, lo, left, end);
    DatesOfTheLine(message, marks, lineMarks, lo, left, right, end, left);
  }

  lemma DateAtIsResetAt(line: string, x: nat)
    requires x <= |line|
    ensures DateAt(line, MarkersOf(line), x, |line|) == if IsMarker(Lower(line), x) then ResetAt(line, x) else None
  {
    assert line[x..|line|] == line[x..];
    if IsMarker(Lower(line), x) {
      MarkerIsInside(Lower(line), x);
    }
  }

  lemma NoDateNoReset(line: string, x: nat)
    requires x <= |line| && forall at: nat :: IsMarker(Lower(line), at) ==> !DateLed(RawToken(line[at..]))
    ensures DateAt(line, MarkersOf(line), x, |line|).None?
  {
    DateAtIsResetAt(line, x);
    ResetIffDate(line, x);
  }

  lemma FirstResetIsFirstDate(line: string, at: nat, reset: Option<string>)
    requires FirstReset(line, at, reset)
    ensures reset == FirstDate(line, MarkersOf(line), 0, |line|)
  {
    MarkerIsInside(Lower(line), at);
    var marks := MarkersOf(line);
    forall y | 0 <= y <= at ensures DateAt(line, marks, y, |line|) == if y == at then reset else None {
      DateAtIsResetAt(line, y);
    }
    FirstDateAt(line, marks, 0, at, |line|);
  }

  /** What the extractor reports is the first date of the line. */
  lemma ExtractedIsTheReset(line: string, reset: Option<string>)
    requires reset.None? <==> forall at: nat :: IsMarker(Lower(line), at) ==> !DateLed(RawToken(line[at..]))
    requires reset.Some? ==> exists at: nat :: FirstReset(line, at, reset)
    ensures reset == FirstDate(line, MarkersOf(line), 0, |line|)
  {
    if reset.None? {
      forall y | 0 <= y <= |line| ensures DateAt(line, MarkersOf(line), y, |line|).None? {
        NoDateNoReset(line, y);
      }
      NoFirstDate(line, MarkersOf(line), 0, |line|);
    } else {
      var at: nat :| FirstReset(line, at, reset);
      FirstResetIsFirstDate(line, at, reset);
    }
  }

  /** The message's first `budget_exceeded:` is at `i`, the rest of its line
      ends at `end`, and `reset` is the first date after a marker on it. */
  ghost predicate IsRefusal(message: string, i: nat, end: nat, reset: Option<string>) {
    && FirstWordMatch(Lower(message), "budget_exceeded:", i) && IsLine(message, i + 16, end)
    && reset == FirstDate(message, MarkersOf(message), i + 16, end)
  }

  lemma MarkersLineIsTrimmed(message: string, lo: nat)
    requires 0 < lo <= |message| && !IsWord(message[lo - 1])
    ensures var l := MarkersLine(message, lo); Trimmed(message, lo, l.0, l.1, LineEnd(message, lo))
  {
  }

  /** What the rest of the line from `lo` on carries. */
  function RestDate(message: string, lo: nat): Option<string>
    requires lo <= |message|
  {
    FirstDate(message, MarkersOf(message), lo, LineEnd(message, lo))
  }

  function LineDate(line: string): Option<string> { FirstDate(line, MarkersOf(line), 0, |line|) }

  function TrimmedRest(message: string, lo: nat): string
    requires lo <= |message|
  {
    message[MarkersLine(message, lo).0..MarkersLine(message, lo).1]
  }

  /** The rest of the marker's line, read in full. */
  method ReadRest(message: string, lo: nat) returns (reset: Option<string>)
    requires 0 < lo <= |message| && !IsWord(message[lo - 1])
    ensures reset == RestDate(message, lo)
  {
    reset := ExtractLine(TrimmedRest(message, lo));
    RestIsRead(message, lo);
  }

  method ExtractLine(line: string) returns (reset: Option<string>)
    ensures reset == LineDate(line)
  {
    reset := ExtractResetTimestamp(line);
    ExtractedIsTheReset(line, reset);
  }

  lemma RestIsRead(message: string, lo: nat)
    requires 0 < lo <= |message| && !IsWord(message[lo - 1])
    ensures LineDate(TrimmedRest(message, lo)) == RestDate(message, lo)
  {
    var l := MarkersLine(message, lo);
    MarkersLineIsTrimmed(message, lo);
    LineReset(message, lo, l.0, l.1, LineEnd(message, lo));
  }

  lemma PieceAt(message: string, x: nat, end: nat) returns (a: nat, b: nat)
    requires x <= end <= |message| && ResetAfter(message[x..end]).Some?
    ensures x <= a <= b <= end && ResetAfter(message[x..end]).value == message[a..b] && DateLed(message[a..b])
  {
    var tail := message[x..end];
    ResetAfterIsAPiece(tail);
    var lo, t := SkipToDigit(tail, 0), ResetAfter(tail).value;
    PieceOfPiece(message, x, end, lo, lo + |t|);
    a, b := x + lo, x + lo + |t|;
  }

  lemma DateIsAPiece(message: string, marks: set<nat>, x: nat, end: nat) returns (a: nat, b: nat)
    requires x <= end <= |message| && DateAt(message, marks, x, end).Some?
    ensures x <= a <= b <= end && DateAt(message, marks, x, end).value == message[a..b] && DateLed(message[a..b])
  {
    a, b := PieceAt(message, x, end);
  }

  /** The first date of a line is a piece of the message. */
  lemma RefusalCarriesADate(message: string, i: nat, end: nat, t: string)
    requires IsRefusal(message, i, end, Some(t))
    ensures exists i: nat, a: nat, b: nat :: DateOnMarkersLine(message, t, i, a, b)
  {
    var x := FirstDateIsFirst(message, MarkersOf(message), i + 16, end);
    var a, b := DateIsAPiece(message, MarkersOf(message), x, end);
    assert DateOnMarkersLine(message, t, i, a, b);
  }

  lemma MarkerEndsInAColon(message: string, i: nat)
    requires OccursAt(Lower(message), BUDGET_EXCEEDED_MARKER, i)
    ensures i + 16 <= |message| && message[i + 15] == ':'
  {
    NeedleChar(Lower(message), BUDGET_EXCEEDED_MARKER, i, 15);
  }

  /** The marker is a word of its own exactly when no letter, digit or
      underscore comes right before it; what follows its colon is free. */
  lemma MarkerStandsAloneIff(before: string, c: char, after: string)
    ensures IsWordMatch(before + [c] + "budget_exceeded:" + after, "budget_exceeded:", |before| + 1) <==>
              !('a' <= c <= 'z' || 'A' <= c <= 'Z' || '0' <= c <= '9' || c == '_')
  {
    var h, n := before + [c] + "budget_exceeded:" + after, "budget_exceeded:";
    assert h[|before| + 1..|before| + 1 + |n|] == n && h[|before|] == c;
  }

  /** The first `budget_exceeded:` of the message, in any case. */
  method FindRefusal(message: string) returns (i: Option<nat>)
    ensures i.None? <==> forall k: nat :: !IsWordMatch(Lower(message), "budget_exceeded:", k)
    ensures i.Some? ==> FirstWordMatch(Lower(message), "budget_exceeded:", i.value)
  {
    var found := WordMatches(Lower(message), BUDGET_EXCEEDED_MARKER);
    MarkersAreWordBorderless();
    HeadIsTheFirst(Lower(message), BUDGET_EXCEEDED_MARKER);
    i := if found == [] then None else Some(found[0]);
  }

  /** None: not a budget refusal. Some(reset): one, with the reset timestamp
      that the rest of the first marker's line carries, if any. */
  method ClassifyEngineBudgetExceeded(message: string) returns (r: Option<Option<string>>)
    ensures r.None? <==> forall i: nat :: !IsWordMatch(Lower(message), "budget_exceeded:", i)
    ensures r.Some? ==> exists i: nat, end: nat :: IsRefusal(message, i, end, r.value)
    ensures r.Some? && r.value.Some? ==>
              exists i: nat, a: nat, b: nat :: DateOnMarkersLine(message, r.value.value, i, a, b)
  {
    var i := FindRefusal(message);
    if i.None? {
      return None;
    }
    MarkerEndsInAColon(message, i.value);
    var reset := ReadRest(message, i.value + |BUDGET_EXCEEDED_MARKER|);
    ghost var end := LineEnd(message, i.value + 16);
    assert IsRefusal(message, i.value, end, reset);
    if reset.Some? {
      RefusalCarriesADate(message, i.value, end, reset.value);
    }
    r := Some(reset);
  }
}
