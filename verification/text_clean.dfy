/** `clean_text` and `highlight_price_mentions` of task3.py (lines 19-25 and
  102-103), over an abstract alphabet: which characters the regular
  expression classes `\w` and `\s` match, and the character-wise lower
  casing, are parameters.

  In Python's `re`, `\b` holds at a position exactly when the characters on
  its two sides differ in being word characters (the string's ends count as
  non-word), so `\b\w{1,2}\b` matches precisely the maximal runs of one or
  two word characters.
*/
module TextClean {
  import opened Frames

  /** What the regular expressions and `str.lower` see of a character. */
  datatype Alphabet = Alphabet(word: char -> bool, space: char -> bool, lower: char -> char)

  /** A review comment cell: a string, or any other value (NaN, a number). */
  datatype Comment = Text(s: string) | NotText

  /** `str.lower`, character by character. */
  function Lower(a: Alphabet, s: string): (r: string)
    ensures |r| == |s| && forall k :: 0 <= k < |s| ==> r[k] == a.lower(s[k])
  {
    seq(|s|, k requires 0 <= k < |s| => a.lower(s[k]))
  }

  // ----- Word runs -----

  /** The end of the run of word characters starting at `k`. */
  function RunEnd(w: char -> bool, s: string, k: nat): (e: nat)
    requires k <= |s|
    ensures k <= e <= |s|
    ensures forall i :: k <= i < e ==> w(s[i])
    ensures e == |s| || !w(s[e])
    decreases |s| - k
  {
    if k == |s| || !w(s[k]) then k else RunEnd(w, s, k + 1)
  }

  /** The start of the run of word characters that ends at `k`. */
  function RunStart(w: char -> bool, s: string, k: nat): (b: nat)
    requires k <= |s|
    ensures b <= k
    ensures forall i :: b <= i < k ==> w(s[i])
    ensures b == 0 || !w(s[b - 1])
  {
    if k == 0 || !w(s[k - 1]) then k else RunStart(w, s, k - 1)
  }

  /** `\b` at position `i`: a word character on exactly one side. */
  predicate WordBoundary(w: char -> bool, s: string, i: nat)
    requires i <= |s|
  {
    (i > 0 && w(s[i - 1])) != (i < |s| && w(s[i]))
  }

  /** `\b\w{1,2}\b` matches `s[i..j]`. */
  predicate ShortWordAt(w: char -> bool, s: string, i: nat, j: nat)
    requires i <= j <= |s|
  {
    && 1 <= j - i <= 2
    && (forall k :: i <= k < j ==> w(s[k]))
    && WordBoundary(w, s, i)
    && WordBoundary(w, s, j)
  }

  /** Position `k` lies in a maximal run of one or two word characters. */
  predicate InShortWord(w: char -> bool, s: string, k: nat)
    requires k < |s|
  {
    w(s[k]) && RunEnd(w, s, k) - RunStart(w, s, k) <= 2
  }

  /** Reference for the short-word removal: the characters at positions
      `k..` that lie in no short word, in order. */
  function KeepFrom(w: char -> bool, s: string, k: nat): (r: string)
    requires k <= |s|
    decreases |s| - k
  {
    if k == |s| then []
    else (if InShortWord(w, s, k) then [] else [s[k]]) + KeepFrom(w, s, k + 1)
  }

  /** Line 22, `re.sub(r'\b\w{1,2}\b', '', text)` from position `m`: scan run
      by run, copying a non-word character, dropping a run of at most two
      word characters and copying a longer one. */
  function DropShortFrom(w: char -> bool, s: string, m: nat): (r: string)
    requires m <= |s|
    ensures |r| <= |s| - m
    decreases |s| - m
  {
    if m == |s| then []
    else if !w(s[m]) then [s[m]] + DropShortFrom(w, s, m + 1)
    else
      var e := RunEnd(w, s, m);
      (if e - m <= 2 then [] else s[m..e]) + DropShortFrom(w, s, e)
  }

  /** Line 22 on the whole text: the characters that lie in no maximal run
      of one or two word characters, in order. */
  function DropShortWords(w: char -> bool, s: string): (r: string)
    ensures |r| <= |s|
    ensures r == KeepFrom(w, s, 0)
  {
    DropShortFromKeeps(w, s, 0);
    DropShortFrom(w, s, 0)
  }

  /** Line 23, `re.sub(r'[^\w\s]', '', text)`. */
  function StripPunctuation(a: Alphabet, s: string): (r: string)
    ensures forall c :: c in r <==> c in s && (a.word(c) || a.space(c))
  {
    Filter(s, c => a.word(c) || a.space(c))
  }

  /** Lines 19-25, `clean_text`. */
  function CleanText(a: Alphabet, t: Comment): (r: string)
    ensures t.NotText? ==> r == []
    ensures forall c :: c in r ==> a.word(c) || a.space(c)
  {
    match t
    case NotText => []
    case Text(s) => StripPunctuation(a, DropShortWords(a.word, Lower(a, s)))
  }

  // ----- The short-word removal equals its reference -----

  /** Inside a run all positions share the run's end. */
  lemma {:induction false} RunEndWithin(w: char -> bool, s: string, m: nat, k: nat)
    requires m <= |s| && m <= k <= RunEnd(w, s, m)
    ensures RunEnd(w, s, k) == RunEnd(w, s, m)
    decreases k - m
  {
    if k > m {
      RunEndWithin(w, s, m, k - 1);
    }
  }

  /** Inside a run that starts at `m`, all positions share that start. */
  lemma {:induction false} RunStartWithin(w: char -> bool, s: string, m: nat, k: nat)
    requires m <= |s| && m <= k < RunEnd(w, s, m)
    requires m == 0 || !w(s[m - 1])
    ensures RunStart(w, s, k) == m
    decreases k - m
  {
    if k > m {
      RunStartWithin(w, s, m, k - 1);
      assert w(s[k - 1]);
    }
  }

  /** The reference over a whole run: all kept when the run is long, none
      when it is short. */
  lemma {:induction false} KeepRun(w: char -> bool, s: string, m: nat, k: nat)
    requires m < |s| && w(s[m]) && (m == 0 || !w(s[m - 1]))
    requires m <= k <= RunEnd(w, s, m)
    ensures var e := RunEnd(w, s, m);
      KeepFrom(w, s, k) == (if e - m <= 2 then [] else s[k..e]) + KeepFrom(w, s, e)
    decreases RunEnd(w, s, m) - k
  {
    var e := RunEnd(w, s, m);
    if k < e {
      KeepRun(w, s, m, k + 1);
      ShortInRun(w, s, m, k);
      if e - m > 2 {
        calc {
          KeepFrom(w, s, k);
          [s[k]] + KeepFrom(w, s, k + 1);
          [s[k]] + (s[k + 1..e] + KeepFrom(w, s, e));
          ([s[k]] + s[k + 1..e]) + KeepFrom(w, s, e);
          { ConsSlice(s, k, e); }
          s[k..e] + KeepFrom(w, s, e);
        }
      } else {
        calc {
          KeepFrom(w, s, k);
          [] + KeepFrom(w, s, k + 1);
          KeepFrom(w, s, k + 1);
          [] + KeepFrom(w, s, e);
        }
      }
    } else {
      assert s[k..e] == [];
    }
  }

  /** A position inside a run lies in a short word exactly when the run is
      short. */
  lemma ShortInRun(w: char -> bool, s: string, m: nat, k: nat)
    requires m < |s| && w(s[m]) && (m == 0 || !w(s[m - 1]))
    requires m <= k < RunEnd(w, s, m)
    ensures InShortWord(w, s, k) <==> RunEnd(w, s, m) - m <= 2
  {
    RunEndWithin(w, s, m, k);
    RunStartWithin(w, s, m, k);
  }

  lemma ConsSlice(s: string, k: nat, e: nat)
    requires k < e <= |s|
    ensures [s[k]] + s[k + 1..e] == s[k..e]
  {
  }

  /** Theorem (line 22): from any position that does not split a run of
      word characters, the scan keeps exactly the characters that lie in no
      maximal run of one or two word characters. */
  lemma {:induction false} DropShortFromKeeps(w: char -> bool, s: string, m: nat)
    requires m <= |s|
    requires m == 0 || m == |s| || !w(s[m - 1]) || !w(s[m])
    ensures DropShortFrom(w, s, m) == KeepFrom(w, s, m)
    decreases |s| - m
  {
    if m < |s| {
      if !w(s[m]) {
        DropShortFromKeeps(w, s, m + 1);
        NonWordStep(w, s, m);
      } else {
        DropShortFromKeeps(w, s, RunEnd(w, s, m));
        WordStep(w, s, m);
      }
    }
  }

  /** Both sides copy a non-word character and go on after it. */
  lemma NonWordStep(w: char -> bool, s: string, m: nat)
    requires m < |s| && !w(s[m])
    ensures DropShortFrom(w, s, m) == [s[m]] + DropShortFrom(w, s, m + 1)
    ensures KeepFrom(w, s, m) == [s[m]] + KeepFrom(w, s, m + 1)
  {
    assert !InShortWord(w, s, m);
  }

  /** Both sides treat a whole run alike and go on after it. */
  lemma WordStep(w: char -> bool, s: string, m: nat)
    requires m < |s| && w(s[m]) && (m == 0 || !w(s[m - 1]))
    ensures var e := RunEnd(w, s, m);
      && DropShortFrom(w, s, m) == (if e - m <= 2 then [] else s[m..e]) + DropShortFrom(w, s, e)
      && KeepFrom(w, s, m) == (if e - m <= 2 then [] else s[m..e]) + KeepFrom(w, s, e)
  {
    KeepRun(w, s, m, m);
  }

  /** Theorem (lines 21-23): `clean_text` of a string keeps, in order, the
      lower-cased characters that are word or space characters and lie in
      no maximal run of one or two word characters of the lower-cased
      text. */
  lemma CleanTextKeeps(a: Alphabet, s: string)
    ensures CleanText(a, Text(s)) == Filter(KeepFrom(a.word, Lower(a, s), 0), c => a.word(c) || a.space(c))
  {
    DropShortFromKeeps(a.word, Lower(a, s), 0);
  }

  /** Theorem: a position lies in a short word exactly when `\b\w{1,2}\b`
      matches a stretch around it. */
  lemma InShortWordMatches(w: char -> bool, s: string, k: nat)
    requires k < |s|
    ensures InShortWord(w, s, k) <==> exists i, j :: 0 <= i <= k < j <= |s| && ShortWordAt(w, s, i, j)
  {
    if InShortWord(w, s, k) {
      var i, j := RunStart(w, s, k), RunEnd(w, s, k);
      assert ShortWordAt(w, s, i, j);
    }
    if exists i, j :: 0 <= i <= k < j <= |s| && ShortWordAt(w, s, i, j) {
      var i, j :| 0 <= i <= k < j <= |s| && ShortWordAt(w, s, i, j);
      RunStartInside(w, s, i, k);
      RunEndInside(w, s, k, j);
    }
  }

  lemma {:induction false} RunStartInside(w: char -> bool, s: string, i: nat, k: nat)
    requires i <= k < |s|
    requires i == 0 || !w(s[i - 1])
    requires forall x :: i <= x <= k ==> w(s[x])
    ensures RunStart(w, s, k) == i
    decreases k - i
  {
    if k > i {
      RunStartInside(w, s, i, k - 1);
    }
  }

  lemma {:induction false} RunEndInside(w: char -> bool, s: string, k: nat, j: nat)
    requires k < j <= |s|
    requires j == |s| || !w(s[j])
    requires forall x :: k <= x < j ==> w(s[x])
    ensures RunEnd(w, s, k) == j
    decreases j - k
  {
    if k + 1 < j {
      RunEndInside(w, s, k + 1, j);
    }
  }

  // ----- Lines 102-103: the price mention -----

  /** `\bprice\b` matches at position `i`. */
  predicate PriceAt(w: char -> bool, s: string, i: nat) {
    i + 5 <= |s| && s[i..i + 5] == "price" && WordBoundary(w, s, i) && WordBoundary(w, s, i + 5)
  }

  /** `\bprice\b` matches at some position `i..` of `s`, scanning the start
      positions from left to right. */
  function PriceFrom(w: char -> bool, s: string, i: nat): (found: bool)
    ensures found <==> exists k: nat :: i <= k && PriceAt(w, s, k)
    decreases |s| - i
  {
    if i + 5 > |s| then false
    else if PriceAt(w, s, i) then true
    else PriceFrom(w, s, i + 1)
  }

  /** Lines 102-103, `highlight_price_mentions`: `re.search(r'\bprice\b', text)`. */
  function MentionsPrice(w: char -> bool, s: string): (found: bool)
    ensures found <==> exists i: nat :: PriceAt(w, s, i)
  {
    PriceFrom(w, s, 0)
  }

  /** Theorem: when letters are word characters, `\bprice\b` is a match of
      `price` preceded by the start of the text or a non-word character and
      followed by the end of the text or a non-word character. */
  lemma PriceAtBounded(w: char -> bool, s: string, i: nat)
    requires w('p') && w('e')
    ensures PriceAt(w, s, i) <==>
      && i + 5 <= |s| && s[i..i + 5] == "price"
      && (i == 0 || !w(s[i - 1]))
      && (i + 5 == |s| || !w(s[i + 5]))
  {
    if i + 5 <= |s| && s[i..i + 5] == "price" {
      assert s[i] == 'p' && s[i + 4] == 'e';
    }
  }
}
