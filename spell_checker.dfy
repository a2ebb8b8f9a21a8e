/**
 * Dictionary look-up for the spell-checking comparison
 * (inclass/order_of_growth/spell_checker.py).
 *
 * The dictionary is every skip_factor-th line of a word list, each with its
 * trailing whitespace removed.  Three algorithms decide whether a word is in
 * it: a linear scan of the list, membership in a set built from the list,
 * and a binary search (bisect_left) over the list, which must be sorted.
 * Words are compared as Python compares strings: lexicographically by
 * character code.  The three answers are proved to agree.
 */
module SpellChecker {

  /* ---------------------------------------------------------------------
     Python's string order
     --------------------------------------------------------------------- */

  /** a < b on Python strings: the first differing character decides, and a
      proper prefix comes first. */
  predicate Less(a: string, b: string): (r: bool)
    ensures r ==> a != b
    ensures a < b ==> r
    ensures a != [] && b != [] && a[0] < b[0] ==> r
  {
    if a == [] then b != []
    else if b == [] then false
    else a[0] < b[0] || (a[0] == b[0] && Less(a[1..], b[1..]))
  }

  predicate LessEq(a: string, b: string) {
    a == b || Less(a, b)
  }

  lemma {:induction false} LessIrreflexive(a: string)
    ensures !Less(a, a)
  {
    if a != [] {
      LessIrreflexive(a[1..]);
    }
  }

  lemma {:induction false} LessTransitive(a: string, b: string, c: string)
    requires Less(a, b) && Less(b, c)
    ensures Less(a, c)
  {
    if a != [] && b != [] && c != [] && a[0] == b[0] == c[0] {
      LessTransitive(a[1..], b[1..], c[1..]);
    }
  }

  lemma {:induction false} LessTotal(a: string, b: string)
    ensures a == b || Less(a, b) || Less(b, a)
  {
    if a != [] && b != [] && a[0] == b[0] {
      LessTotal(a[1..], b[1..]);
      if a[1..] == b[1..] {
        assert a == [a[0]] + a[1..] && b == [b[0]] + b[1..];
      }
    }
  }

  /** Less is a strict total order. */
  lemma LessIsStrictTotalOrder(a: string, b: string, c: string)
    ensures !Less(a, a)
    ensures Less(a, b) ==> !Less(b, a)
    ensures Less(a, b) && Less(b, c) ==> Less(a, c)
    ensures a == b || Less(a, b) || Less(b, a)
  {
    LessIrreflexive(a);
    if Less(a, b) && Less(b, a) {
      LessTransitive(a, b, a);
    }
    if Less(a, b) && Less(b, c) {
      LessTransitive(a, b, c);
    }
    LessTotal(a, b);
  }

  lemma LessEqLessTransitive(a: string, b: string, c: string)
    requires LessEq(a, b) && Less(b, c)
    ensures Less(a, c)
  {
    if a != b {
      LessTransitive(a, b, c);
    }
  }

  /** The list is in non-decreasing order. */
  predicate Sorted(t: seq<string>) {
    forall i, j :: 0 <= i < j < |t| ==> LessEq(t[i], t[j])
  }

  /* ---------------------------------------------------------------------
     Binary search
     --------------------------------------------------------------------- */

  /** bisect_left from Python's bisect module: the first index whose element
      is not less than x, found by halving [lo, hi). */
  method BisectLeft(t: seq<string>, x: string) returns (i: nat)
    requires Sorted(t)
    ensures i <= |t|
    ensures forall k :: 0 <= k < i ==> Less(t[k], x)
    ensures forall k :: i <= k < |t| ==> !Less(t[k], x)
  {
    var lo, hi := 0, |t|;
    while lo < hi
      invariant 0 <= lo <= hi <= |t|
      invariant forall k :: 0 <= k < lo ==> Less(t[k], x)
      invariant forall k :: hi <= k < |t| ==> !Less(t[k], x)
      decreases hi - lo
    {
      var mid := (lo + hi) / 2;
      if Less(t[mid], x) {
        forall k | 0 <= k < mid
          ensures Less(t[k], x)
        {
          LessEqLessTransitive(t[k], t[mid], x);
        }
        lo := mid + 1;
      } else {
        forall k | mid < k < |t|
          ensures !Less(t[k], x)
        {
          if Less(t[k], x) {
            LessEqLessTransitive(t[mid], t[k], x);
          }
        }
        hi := mid;
      }
    }
    i := lo;
  }

  /** bisect_in: x is in the sorted list t.  t[i] is read only when i is an
      index of t. */
  method BisectIn(x: string, t: seq<string>) returns (found: bool)
    requires Sorted(t)
    ensures found <==> x in t
  {
    var i := BisectLeft(t, x);
    found := i != |t| && t[i] == x;
    if x in t {
      var k :| 0 <= k < |t| && t[k] == x;
      LessIrreflexive(x);
      assert i <= k;
      LessTotal(t[i], x);
    }
  }

  /* ---------------------------------------------------------------------
     The other two membership tests
     --------------------------------------------------------------------- */

  /** Algorithm 1: scan the whole list, raising a flag on every match. */
  method LinearScan(currentWord: string, allWords: seq<string>) returns (spelledCorrectly: bool)
    ensures spelledCorrectly <==> currentWord in allWords
  {
    spelledCorrectly := false;
    for k := 0 to |allWords|
      invariant spelledCorrectly <==> currentWord in allWords[..k]
    {
      if currentWord == allWords[k] {
        spelledCorrectly := true;
      }
      assert allWords[..k + 1] == allWords[..k] + [allWords[k]];
    }
    assert allWords[..|allWords|] == allWords;
  }

  /** set(selected_words): the words of a list as a set. */
  function WordSet(words: seq<string>): (s: set<string>)
    ensures forall w :: w in s <==> w in words
  {
    set w | w in words
  }

  /* ---------------------------------------------------------------------
     Building the dictionary
     --------------------------------------------------------------------- */

  /** The whitespace characters that Python 2's str.rstrip() removes. */
  predicate IsSpace(c: char) {
    c == ' ' || c == '\t' || c == '\n' || c == '\r' || c == 11 as char || c == 12 as char
  }

  /** str.rstrip(): the line without its trailing whitespace. */
  function RStrip(s: string): (r: string)
    ensures |r| <= |s| && r == s[..|r|]
    ensures r == [] || !IsSpace(r[|r| - 1])
    ensures forall i :: |r| <= i < |s| ==> IsSpace(s[i])
  {
    if s != [] && IsSpace(s[|s| - 1]) then RStrip(s[..|s| - 1]) else s
  }

  /** Stripping twice strips nothing more. */
  lemma RStripIdempotent(s: string)
    ensures RStrip(RStrip(s)) == RStrip(s)
  {
  }

  lemma MulAtLeast(m: int, d: int)
    requires m >= 1 && d >= 1
    ensures m * d >= d
  {
    var k := m - 1;
    assert k >= 0;
    assert m * d == k * d + d;
  }

  /** Euclidean division is unique. */
  lemma DivUnique(a: int, d: int, q: int, r: int)
    requires d >= 1 && a == q * d + r && 0 <= r < d
    ensures q == a / d
  {
    var q0, r0 := a / d, a % d;
    assert a == q0 * d + r0;
    assert (q - q0) * d == r0 - r;
    if q > q0 {
      MulAtLeast(q - q0, d);
    } else if q < q0 {
      MulAtLeast(q0 - q, d);
    }
  }

  /** The number of indices 0, skip, 2*skip, ... below n is n/skip rounded up. */
  lemma StrideCount(n: nat, skip: nat, count: nat)
    requires skip >= 1
    requires count * skip >= n
    requires count == 0 || (count - 1) * skip < n
    ensures count == (n + skip - 1) / skip
  {
    if count == 0 {
      DivUnique(n + skip - 1, skip, 0, n + skip - 1);
    } else {
      assert (count - 1) * skip == count * skip - skip;
      DivUnique(n + skip - 1, skip, count, n + skip - 1 - count * skip);
    }
  }

  /** Index k is selected exactly when k * skip is below n. */
  lemma StrideIndexSelected(n: nat, skip: nat, k: nat)
    requires skip >= 1 && k * skip < n
    ensures k < (n + skip - 1) / skip
  {
    var q, r := (n + skip - 1) / skip, (n + skip - 1) % skip;
    assert (k + 1) * skip <= q * skip + r;
    assert (k + 1 - q) * skip <= r < skip;
    assert k + 1 - q < 1;
  }

  lemma StrideStep(count: nat, skip: nat)
    ensures (count + 1) * skip == count * skip + skip
  {
  }

  /** load_words_as_list over the lines of the word list: every skip-th line,
      starting with the first, with trailing whitespace removed.  A skip of
      zero makes range() raise an error, so it is excluded; a negative skip
      (an empty range, so an empty list) is left out of the type, as every
      caller of the program passes a skip of 1 to 19. */
  method LoadWordsAsList(lines: seq<string>, skipFactor: nat) returns (selectedWords: seq<string>)
    requires skipFactor >= 1
    ensures |selectedWords| == (|lines| + skipFactor - 1) / skipFactor
    ensures forall k :: 0 <= k < |selectedWords| ==>
              k * skipFactor < |lines| && selectedWords[k] == RStrip(lines[k * skipFactor])
  {
    selectedWords := [];
    var i := 0;
    while i < |lines|
      invariant i == |selectedWords| * skipFactor
      invariant selectedWords == [] || i < |lines| + skipFactor
      invariant forall k :: 0 <= k < |selectedWords| ==>
                  k * skipFactor < |lines| && selectedWords[k] == RStrip(lines[k * skipFactor])
      decreases |lines| - i
    {
      ghost var n := |selectedWords|;
      StrideStep(n, skipFactor);
      selectedWords := selectedWords + [RStrip(lines[i])];
      assert selectedWords[n] == RStrip(lines[n * skipFactor]);
      i := i + skipFactor;
    }
    if selectedWords != [] {
      StrideStep(|selectedWords| - 1, skipFactor);
    }
    StrideCount(|lines|, skipFactor, |selectedWords|);
  }

  /** w is the stripped line at one of the indices 0, skip, 2*skip, ... */
  ghost predicate Selected(lines: seq<string>, skipFactor: nat, w: string) {
    exists k :: 0 <= k && k * skipFactor < |lines| && w == RStrip(lines[k * skipFactor])
  }

  /** load_words_as_set: the same selection, as a set. */
  method LoadWordsAsSet(lines: seq<string>, skipFactor: nat) returns (selectedWords: set<string>)
    requires skipFactor >= 1
    ensures forall w :: w in selectedWords <==> Selected(lines, skipFactor, w)
  {
    var list := LoadWordsAsList(lines, skipFactor);
    selectedWords := WordSet(list);
    forall w
      ensures w in selectedWords <==> Selected(lines, skipFactor, w)
    {
      if Selected(lines, skipFactor, w) {
        var k :| 0 <= k && k * skipFactor < |lines| && w == RStrip(lines[k * skipFactor]);
        StrideIndexSelected(|lines|, skipFactor, k);
        assert list[k] == w;
      }
    }
  }

  /* ---------------------------------------------------------------------
     Sortedness of the dictionary
     --------------------------------------------------------------------- */

  /** Multiplying by a positive skip keeps the order of indices. */
  lemma MulStrict(i: nat, j: nat, skip: nat)
    requires i < j && skip >= 1
    ensures i * skip < j * skip
  {
    assert j * skip == i * skip + (j - i) * skip;
    MulAtLeast(j - i, skip);
  }

  /** The word list is sorted once each line is stripped. */
  predicate SortedAfterStrip(lines: seq<string>) {
    forall i, j :: 0 <= i < j < |lines| ==> LessEq(RStrip(lines[i]), RStrip(lines[j]))
  }

  /** Any stride selection of a list that is sorted after stripping is sorted,
      whatever the skip factor: algorithm 3 may binary-search it. */
  lemma StrideSelectionSorted(lines: seq<string>, skipFactor: nat, selectedWords: seq<string>)
    requires skipFactor >= 1 && SortedAfterStrip(lines)
    requires forall k :: 0 <= k < |selectedWords| ==>
               k * skipFactor < |lines| && selectedWords[k] == RStrip(lines[k * skipFactor])
    ensures Sorted(selectedWords)
  {
    forall i, j | 0 <= i < j < |selectedWords|
      ensures LessEq(selectedWords[i], selectedWords[j])
    {
      MulStrict(i, j, skipFactor);
    }
  }

  /** Sorted raw lines do not make sorted stripped lines: "a\t!" comes before
      "a\n", but after stripping "a" comes before "a\t!". */
  lemma SortedLinesNotSortedAfterStrip()
    ensures Sorted(["a\t!", "a\n"])
    ensures !SortedAfterStrip(["a\t!", "a\n"])
  {
    assert RStrip("a\n") == "a" by {
      assert "a\n"[..1] == "a";
    }
    assert RStrip("a\t!") == "a\t!";
    assert Less("a", "a\t!") by {
      assert "a"[1..] == [] && "a\t!"[1..] == "\t!";
    }
    LessIsStrictTotalOrder("a", "a\t!", "a");
    assert !LessEq(RStrip(["a\t!", "a\n"][0]), RStrip(["a\t!", "a\n"][1]));
  }

  /* ---------------------------------------------------------------------
     The three algorithms agree
     --------------------------------------------------------------------- */

  /** One word checked by the membership tests of algorithms 1, 2 and 3
      against a dictionary built with the same skip factor. */
  method CheckWord(currentWord: string, lines: seq<string>, skipFactor: nat)
    returns (byScan: bool, bySet: bool, byBisect: bool)
    requires skipFactor >= 1
    requires SortedAfterStrip(lines)
    ensures byScan == bySet == byBisect
    ensures byScan <==> Selected(lines, skipFactor, currentWord)
  {
    var list := LoadWordsAsList(lines, skipFactor);
    var dictionary := LoadWordsAsSet(lines, skipFactor);
    byScan := LinearScan(currentWord, list);
    bySet := currentWord in dictionary;
    StrideSelectionSorted(lines, skipFactor, list);
    byBisect := BisectIn(currentWord, list);
    if Selected(lines, skipFactor, currentWord) {
      var k :| 0 <= k && k * skipFactor < |lines| && currentWord == RStrip(lines[k * skipFactor]);
      StrideIndexSelected(|lines|, skipFactor, k);
      assert list[k] == currentWord;
    }
  }
}
