/** The word-cloud data (`getTopWords`): words of the positive reviews'
    cleaned text, counted, sorted by count and cut to fifty. */
module TopWords {
  import opened Wrappers
  import opened Strings
  import opened Numbers
  import opened Reviews
  import Aggregates

  /** `\w` of a JavaScript regular expression without the `u` flag. */
  predicate IsWordChar(c: char) {
    ('a' <= c <= 'z') || ('A' <= c <= 'Z') || ('0' <= c <= '9') || c == '_'
  }

  /** `s.match(/\b\w+\b/g) || []`: the maximal runs of word characters, in order. */
  function Words(s: string): (ws: seq<string>)
    ensures s != [] && IsWordChar(s[|s| - 1]) ==> ws != []
    ensures forall i :: 0 <= i < |ws| ==> ws[i] != []
    ensures forall i, k :: 0 <= i < |ws| && 0 <= k < |ws[i]| ==> IsWordChar(ws[i][k])
  {
    if s == [] then []
    else
      var ws := Words(s[..|s| - 1]);
      var c := s[|s| - 1];
      if !IsWordChar(c) then ws
      else if |s| >= 2 && IsWordChar(s[|s| - 2]) then
        var last := ws[|ws| - 1] + [c];
        ws[..|ws| - 1] + [last]
      else ws + [[c]]
  }

  const StopWords: set<string> := {
    "the", "and", "to", "is", "it", "in", "a", "of", "for", "on", "with", "as",
    "this", "that", "at", "by", "an", "be", "are", "or", "from", "have", "has",
    "had", "was", "were", "been", "will", "can", "but", "not", "you", "i", "we",
    "they", "he", "she", "them", "his", "her", "their", "our", "us"
  }

  /** The test a word must pass to be counted. */
  predicate Kept(w: string) {
    |w| > 2 && w !in StopWords && !AllDigits(w)
  }

  /** The words of `ws` that pass `Kept`, in order. */
  function KeptWords(ws: seq<string>): (r: seq<string>)
    ensures forall i :: 0 <= i < |r| ==> Kept(r[i])
  {
    if ws == [] then []
    else KeptWords(ws[..|ws| - 1]) + (if Kept(ws[|ws| - 1]) then [ws[|ws| - 1]] else [])
  }

  /** A text made only of word characters is one match. */
  lemma {:induction false} WordsOfRun(s: string)
    requires s != []
    requires forall k :: 0 <= k < |s| ==> IsWordChar(s[k])
    ensures Words(s) == [s]
    decreases |s|
  {
    var init := s[..|s| - 1];
    if |s| > 1 {
      WordsOfRun(init);
      assert IsWordChar(s[|s| - 2]);
      assert init + [s[|s| - 1]] == s;
    } else {
      assert init == [];
      assert s == [s[0]];
    }
  }

  /** A non-word character adds no match. */
  lemma WordsNonWord(s: string, d: char)
    requires !IsWordChar(d)
    ensures Words(s + [d]) == Words(s)
  {
    assert (s + [d])[..|s|] == s;
  }

  /** A word character right after another extends the last match. */
  lemma WordsExtend(s: string, d: char)
    requires IsWordChar(d) && s != [] && IsWordChar(s[|s| - 1])
    ensures Words(s) != []
    ensures Words(s + [d]) == Words(s)[..|Words(s)| - 1] + [Words(s)[|Words(s)| - 1] + [d]]
  {
    var t := s + [d];
    assert t[..|s|] == s;
    assert t[|t| - 2] == s[|s| - 1];
  }

  /** A word character after a non-word character, or at the start, begins a new match. */
  lemma WordsBegin(s: string, d: char)
    requires IsWordChar(d) && (s == [] || !IsWordChar(s[|s| - 1]))
    ensures Words(s + [d]) == Words(s) + [[d]]
  {
    var t := s + [d];
    assert t[..|s|] == s;
    if s != [] {
      assert t[|t| - 2] == s[|s| - 1];
    }
  }

  /** The three steps of `WordsSplit`: when the matches of `t` are `xs`
      followed by the matches of `b`, one more character `d` keeps it so. */
  lemma SplitNonWord(t: string, b: string, d: char, xs: seq<string>)
    requires Words(t) == xs + Words(b) && !IsWordChar(d)
    ensures Words(t + [d]) == xs + Words(b + [d])
  {
    WordsNonWord(t, d);
    WordsNonWord(b, d);
  }

  lemma SplitExtend(t: string, b: string, d: char, xs: seq<string>)
    requires Words(t) == xs + Words(b) && IsWordChar(d)
    requires b != [] && IsWordChar(b[|b| - 1]) && t != [] && t[|t| - 1] == b[|b| - 1]
    ensures Words(t + [d]) == xs + Words(b + [d])
  {
    WordsExtend(t, d);
    WordsExtend(b, d);
    ExtendLastConcat(xs, Words(b), d);
  }

  lemma SplitBegin(t: string, b: string, d: char, xs: seq<string>)
    requires Words(t) == xs + Words(b) && IsWordChar(d)
    requires t == [] || !IsWordChar(t[|t| - 1])
    requires b == [] || !IsWordChar(b[|b| - 1])
    ensures Words(t + [d]) == xs + Words(b + [d])
  {
    WordsBegin(t, d);
    WordsBegin(b, d);
  }

  /** A non-word character separates the matches of the text before it from
      those after it. */
  lemma {:induction false} WordsSplit(a: string, c: char, b: string)
    requires !IsWordChar(c)
    ensures Words(a + [c] + b) == Words(a) + Words(b)
    decreases |b|
  {
    if b == [] {
      WordsNonWord(a, c);
      assert a + [c] + b == a + [c];
    } else {
      var b0 := b[..|b| - 1];
      var d := b[|b| - 1];
      var t := a + [c] + b0;
      WordsSplit(a, c, b0);
      assert a + [c] + b == t + [d];
      assert b0 + [d] == b;
      assert t[|t| - 1] == if b0 == [] then c else b0[|b0| - 1];
      if !IsWordChar(d) {
        SplitNonWord(t, b0, d, Words(a));
      } else if b0 != [] && IsWordChar(b0[|b0| - 1]) {
        SplitExtend(t, b0, d, Words(a));
      } else {
        SplitBegin(t, b0, d, Words(a));
      }
    }
  }

  /** Every word of `ws` that passes the test is kept, as often as it
      occurs, and no other word is. */
  lemma {:induction false} KeptWordsCount(ws: seq<string>)
    ensures forall w :: multiset(KeptWords(ws))[w] == if Kept(w) then multiset(ws)[w] else 0
    decreases |ws|
  {
    if ws != [] {
      KeptWordsCount(ws[..|ws| - 1]);
      assert ws == ws[..|ws| - 1] + [ws[|ws| - 1]];
    }
  }

  /** The words one review contributes when it is positive. */
  function ReviewWords(r: Review): seq<string> {
    KeptWords(Words(Lower(r.cleanedText)))
  }

  /** All counted words of the positive reviews, in reading order. */
  function PositiveWords(data: seq<Review>): (ws: seq<string>)
    ensures forall i :: 0 <= i < |ws| ==> Kept(ws[i])
  {
    if data == [] then []
    else
      var x := data[|data| - 1];
      PositiveWords(data[..|data| - 1]) + (if x.sentiment == Aggregates.Positive then ReviewWords(x) else [])
  }

  /** The counted words after one more review. */
  lemma PositiveWordsNext(data: seq<Review>, i: nat)
    requires i < |data|
    ensures PositiveWords(data[..i + 1]) == PositiveWords(data[..i])
      + (if data[i].sentiment == Aggregates.Positive then ReviewWords(data[i]) else [])
  {
    assert data[..i + 1][..i] == data[..i];
  }

  /** One entry of `Object.entries(wordCount)`. */
  datatype WordCount = WordCount(word: string, count: nat)

  function WordsOf(d: seq<WordCount>): (ws: seq<string>)
    ensures |ws| == |d|
    ensures forall i :: 0 <= i < |d| ==> ws[i] == d[i].word
  {
    seq(|d|, i requires 0 <= i < |d| => d[i].word)
  }

  /** No word has two entries. */
  predicate DistinctWords(d: seq<WordCount>) {
    forall i, j :: 0 <= i < j < |d| ==> d[i].word != d[j].word
  }

  /** The count of `w`, 0 when it has no entry. */
  function CountOf(d: seq<WordCount>, w: string): nat {
    if d == [] then 0
    else if d[0].word == w then d[0].count
    else CountOf(d[1..], w)
  }

  /** `wordCount[w] = (wordCount[w] || 0) + 1` on a dictionary without
      inherited keys: a new word goes at the end with count 1, a known
      word's count goes up by one, its place unchanged. */
  function Bump(d: seq<WordCount>, w: string): (r: seq<WordCount>)
    ensures forall v :: CountOf(r, v) == CountOf(d, v) + (if v == w then 1 else 0)
  {
    if d == [] then [WordCount(w, 1)]
    else if d[0].word == w then [d[0].(count := d[0].count + 1)] + d[1..]
    else [d[0]] + Bump(d[1..], w)
  }

  /** Bumping adds `w` to the words and no other. */
  lemma {:induction false} BumpWords(d: seq<WordCount>, w: string)
    ensures forall v :: v in WordsOf(Bump(d, w)) <==> v in WordsOf(d) || v == w
  {
    var r := Bump(d, w);
    if d == [] {
      assert WordsOf(r) == [w];
    } else if d[0].word == w {
      assert WordsOf(r) == WordsOf(d);
    } else {
      var rest := Bump(d[1..], w);
      BumpWords(d[1..], w);
      assert WordsOf(d) == [d[0].word] + WordsOf(d[1..]);
      assert WordsOf(r) == [d[0].word] + WordsOf(rest);
    }
  }

  /** Bumping keeps the words distinct. */
  lemma {:induction false} BumpDistinct(d: seq<WordCount>, w: string)
    requires DistinctWords(d)
    ensures DistinctWords(Bump(d, w))
  {
    if d != [] && d[0].word != w {
      var rest := Bump(d[1..], w);
      var r := [d[0]] + rest;
      BumpDistinct(d[1..], w);
      BumpWords(d[1..], w);
      forall j | 1 <= j < |r| ensures r[0].word != r[j].word {
        assert WordsOf(rest)[j - 1] == r[j].word;
        assert r[j].word in WordsOf(rest);
        if r[j].word != w {
          assert r[j].word in WordsOf(d[1..]);
          var k :| 0 <= k < |d[1..]| && WordsOf(d[1..])[k] == r[j].word;
          assert d[k + 1].word == r[j].word;
        }
      }
    }
  }

  /** Bumping keeps every count positive. */
  lemma {:induction false} BumpCounted(d: seq<WordCount>, w: string)
    requires AllCounted(d)
    ensures AllCounted(Bump(d, w))
  {
    if d != [] && d[0].word != w {
      BumpCounted(d[1..], w);
    }
  }

  /** Every entry has a positive count. */
  predicate AllCounted(d: seq<WordCount>) {
    forall i :: 0 <= i < |d| ==> d[i].count > 0
  }

  /** The dictionary after counting `ws` in order (first-seen order of keys). */
  function Tally(ws: seq<string>): (d: seq<WordCount>)
    ensures DistinctWords(d)
  {
    if ws == [] then []
    else
      BumpDistinct(Tally(ws[..|ws| - 1]), ws[|ws| - 1]);
      Bump(Tally(ws[..|ws| - 1]), ws[|ws| - 1])
  }

  /** Counting one more word of a review: a kept word is bumped, any other
      word leaves the dictionary as it is. */
  lemma TallyKeptNext(counted: seq<string>, words: seq<string>, j: nat)
    requires j < |words|
    ensures Tally(counted + KeptWords(words[..j + 1])) ==
      if Kept(words[j]) then Bump(Tally(counted + KeptWords(words[..j])), words[j])
      else Tally(counted + KeptWords(words[..j]))
  {
    assert words[..j + 1][..j] == words[..j];
    var before := counted + KeptWords(words[..j]);
    if Kept(words[j]) {
      assert counted + KeptWords(words[..j + 1]) == before + [words[j]];
      assert (before + [words[j]])[..|before|] == before;
    } else {
      assert counted + KeptWords(words[..j + 1]) == before;
    }
  }

  /** The dictionary holds exactly the words of `ws`. */
  lemma {:induction false} TallyWords(ws: seq<string>)
    ensures forall v :: v in WordsOf(Tally(ws)) <==> v in ws
  {
    if ws != [] {
      var init := ws[..|ws| - 1];
      TallyWords(init);
      BumpWords(Tally(init), ws[|ws| - 1]);
      assert Tally(ws) == Bump(Tally(init), ws[|ws| - 1]);
      assert ws == init + [ws[|ws| - 1]];
    }
  }

  /** Each word's entry holds its number of occurrences in `ws`. */
  lemma {:induction false} TallyCounts(ws: seq<string>)
    ensures forall v :: CountOf(Tally(ws), v) == multiset(ws)[v]
  {
    if ws != [] {
      var init := ws[..|ws| - 1];
      TallyCounts(init);
      assert ws == init + [ws[|ws| - 1]];
    }
  }

  /** No entry has count 0. */
  lemma {:induction false} TallyCounted(ws: seq<string>)
    ensures AllCounted(Tally(ws))
  {
    if ws != [] {
      TallyCounted(ws[..|ws| - 1]);
      BumpCounted(Tally(ws[..|ws| - 1]), ws[|ws| - 1]);
    }
  }

  lemma {:induction false} CountOfEntry(d: seq<WordCount>, i: nat)
    requires DistinctWords(d) && i < |d|
    ensures CountOf(d, d[i].word) == d[i].count
    decreases |d|
  {
    if i > 0 {
      CountOfEntry(d[1..], i - 1);
    }
  }

  /** Counts never increase along the list. */
  predicate NonIncreasing(d: seq<WordCount>) {
    forall i, j :: 0 <= i < j < |d| ==> d[i].count >= d[j].count
  }

  /** Inserts `e` after every entry whose count is at least its own. */
  function InsertByCount(e: WordCount, s: seq<WordCount>): (r: seq<WordCount>)
    requires NonIncreasing(s)
    ensures NonIncreasing(r)
    ensures multiset(r) == multiset(s) + multiset{e}
  {
    if s == [] then [e]
    else if s[0].count < e.count then [e] + s
    else
      var rest := InsertByCount(e, s[1..]);
      var r := [s[0]] + rest;
      assert s == [s[0]] + s[1..];
      forall j | 1 <= j < |r| ensures r[0].count >= r[j].count {
        InsertedFrom(rest, s[1..], e, j - 1);
      }
      r
  }

  /** An element of `a`, a permutation of `b` plus `e`, is `e` or an element of `b`. */
  lemma InsertedFrom<T>(a: seq<T>, b: seq<T>, e: T, j: nat)
    requires multiset(a) == multiset(b) + multiset{e} && j < |a|
    ensures a[j] == e || exists k :: 0 <= k < |b| && b[k] == a[j]
  {
    assert a[j] in multiset(a);
  }

  /** The stable descending sort `entries.sort(([, a], [, b]) => b - a)`. */
  function SortByCount(d: seq<WordCount>): (r: seq<WordCount>)
    ensures NonIncreasing(r)
    ensures multiset(r) == multiset(d)
  {
    if d == [] then []
    else
      assert d == d[..|d| - 1] + [d[|d| - 1]];
      InsertByCount(d[|d| - 1], SortByCount(d[..|d| - 1]))
  }

  const TopCount := 50

  /** `getTopWords()` without the display-only `frequency` field. */
  function TopWordsOf(data: seq<Review>): seq<WordCount> {
    var sorted := SortByCount(Tally(PositiveWords(data)));
    if |sorted| <= TopCount then sorted else sorted[..TopCount]
  }

  /** Inserting an entry whose word is new keeps the words distinct. */
  lemma {:induction false} InsertDistinct(e: WordCount, s: seq<WordCount>)
    requires NonIncreasing(s) && DistinctWords(s)
    requires forall k :: 0 <= k < |s| ==> s[k].word != e.word
    ensures DistinctWords(InsertByCount(e, s))
    decreases |s|
  {
    if s != [] && s[0].count >= e.count {
      InsertDistinct(e, s[1..]);
      var rest := InsertByCount(e, s[1..]);
      forall j | 0 <= j < |rest| ensures rest[j].word != s[0].word {
        assert rest[j] in multiset(s[1..]) + multiset{e};
        if rest[j] != e {
          assert rest[j] in s[1..];
        }
      }
    }
  }

  /** Sorting keeps the words distinct. */
  lemma {:induction false} SortDistinct(d: seq<WordCount>)
    requires DistinctWords(d)
    ensures DistinctWords(SortByCount(d))
    decreases |d|
  {
    if d != [] {
      var init := d[..|d| - 1];
      var e := d[|d| - 1];
      SortDistinct(init);
      var sorted := SortByCount(init);
      forall k | 0 <= k < |sorted| ensures sorted[k].word != e.word {
        assert sorted[k] in multiset(init);
        var p :| 0 <= p < |init| && init[p] == sorted[k];
        assert d[p] == sorted[k];
      }
      InsertDistinct(e, sorted);
    }
  }

  /** Every entry of the sorted dictionary is an entry of the dictionary. */
  lemma SortedEntry(d: seq<WordCount>, i: nat)
    requires i < |SortByCount(d)|
    ensures exists p :: 0 <= p < |d| && d[p] == SortByCount(d)[i]
  {
    assert SortByCount(d)[i] in multiset(d);
  }

  /** Each listed word passes the word test and carries its number of occurrences. */
  lemma TopEntry(data: seq<Review>, i: nat)
    requires i < |TopWordsOf(data)|
    ensures var e := TopWordsOf(data)[i];
      Kept(e.word) && e.count == multiset(PositiveWords(data))[e.word] > 0
  {
    var ws := PositiveWords(data);
    var d := Tally(ws);
    var sorted := SortByCount(d);
    assert TopWordsOf(data)[i] == sorted[i];
    SortedEntry(d, i);
    var p :| 0 <= p < |d| && d[p] == sorted[i];
    CountOfEntry(d, p);
    TallyCounts(ws);
    TallyCounted(ws);
    TallyWords(ws);
    assert WordsOf(d)[p] == d[p].word;
  }

  /** An entry before the cut is in the words of the prefix. */
  lemma PrefixWord(s: seq<WordCount>, n: nat, q: nat)
    ensures q < n <= |s| ==> s[q].word in WordsOf(s[..n])
  {
    if q < n <= |s| {
      assert WordsOf(s[..n])[q] == s[q].word;
    }
  }

  /** An entry of a sorted list whose word is not among the first `n` words
      lies past the cut, so the list is longer than `n` and every entry
      before the cut counts at least as much. */
  lemma PastCut(sorted: seq<WordCount>, n: nat, q: nat)
    requires NonIncreasing(sorted) && q < |sorted| && n <= |sorted|
    requires sorted[q].word !in WordsOf(sorted[..n])
    ensures n <= q
    ensures forall i :: 0 <= i < n ==> sorted[i].count >= sorted[q].count
  {
    PrefixWord(sorted, n, q);
  }

  /** The entry of a counted word in the dictionary. */
  lemma TallyEntry(ws: seq<string>, w: string) returns (p: nat)
    requires w in ws
    ensures p < |Tally(ws)| && Tally(ws)[p] == WordCount(w, multiset(ws)[w])
  {
    var d := Tally(ws);
    TallyWords(ws);
    TallyCounts(ws);
    assert w in WordsOf(d);
    var k :| 0 <= k < |d| && WordsOf(d)[k] == w;
    p := k;
    CountOfEntry(d, p);
  }

  /** A counted word missing from the list occurs no more often than any
      listed word, and the list is full. */
  lemma TopMissing(data: seq<Review>, w: string)
    requires w in PositiveWords(data) && w !in WordsOf(TopWordsOf(data))
    ensures |TopWordsOf(data)| == TopCount
    ensures forall i :: 0 <= i < |TopWordsOf(data)| ==> TopWordsOf(data)[i].count >= multiset(PositiveWords(data))[w]
  {
    var ws := PositiveWords(data);
    var p := TallyEntry(ws, w);
    SortedMissing(Tally(ws), p);
  }

  /** The same for any dictionary: an entry whose word the cut list lacks
      lies past the cut. */
  lemma SortedMissing(d: seq<WordCount>, p: nat)
    requires p < |d|
    ensures var sorted := SortByCount(d);
      var top := if |sorted| <= TopCount then sorted else sorted[..TopCount];
      d[p].word !in WordsOf(top) ==>
        |top| == TopCount && forall i :: 0 <= i < |top| ==> top[i].count >= d[p].count
  {
    var sorted := SortByCount(d);
    var n := if |sorted| <= TopCount then |sorted| else TopCount;
    SamePlace(d, sorted, p);
    var q :| 0 <= q < |sorted| && sorted[q] == d[p];
    if d[p].word !in WordsOf(sorted[..n]) {
      PastCut(sorted, n, q);
    }
  }

  /** An element of a list is an element of any permutation of it. */
  lemma SamePlace<T>(a: seq<T>, b: seq<T>, p: nat)
    requires multiset(a) == multiset(b) && p < |a|
    ensures exists q :: 0 <= q < |b| && b[q] == a[p]
  {
    assert a[p] in multiset(b);
  }

  /** The word list is at most fifty entries long, sorted by non-increasing
      count, with distinct words; every word is longer than two characters,
      not a stop word and not all digits, and carries the number of times it
      occurs in the positive reviews; and a counted word that did not make
      the list occurs no more often than any word that did, the list being
      full. */
  lemma TopWordsSpec(data: seq<Review>)
    ensures var top := TopWordsOf(data);
      && |top| <= TopCount
      && NonIncreasing(top)
      && DistinctWords(top)
      && (forall i :: 0 <= i < |top| ==>
            Kept(top[i].word) && top[i].count == multiset(PositiveWords(data))[top[i].word] > 0)
      && (forall w :: w in PositiveWords(data) && w !in WordsOf(top) ==>
            |top| == TopCount && forall i :: 0 <= i < |top| ==> top[i].count >= multiset(PositiveWords(data))[w])
  {
    var d := Tally(PositiveWords(data));
    var sorted := SortByCount(d);
    SortDistinct(d);
    TopShape(sorted, TopCount);
    forall i | 0 <= i < |TopWordsOf(data)|
      ensures Kept(TopWordsOf(data)[i].word)
      ensures TopWordsOf(data)[i].count == multiset(PositiveWords(data))[TopWordsOf(data)[i].word] > 0
    {
      TopEntry(data, i);
    }
    forall w | w in PositiveWords(data) && w !in WordsOf(TopWordsOf(data))
      ensures |TopWordsOf(data)| == TopCount
      ensures forall i :: 0 <= i < |TopWordsOf(data)| ==> TopWordsOf(data)[i].count >= multiset(PositiveWords(data))[w]
    {
      TopMissing(data, w);
    }
  }

  /** Cutting a sorted list of distinct words keeps it sorted and distinct. */
  lemma TopShape(s: seq<WordCount>, n: nat)
    requires NonIncreasing(s) && DistinctWords(s)
    ensures var top := if |s| <= n then s else s[..n];
      NonIncreasing(top) && DistinctWords(top)
  {
  }

  /** Only positive reviews matter: dropping every other review leaves the
      word list unchanged. */
  lemma {:induction false} OnlyPositiveCount(data: seq<Review>)
    ensures PositiveWords(data) == PositiveWords(PositiveOnly(data))
  {
    if data != [] {
      var init := data[..|data| - 1];
      var x := data[|data| - 1];
      OnlyPositiveCount(init);
      var p := PositiveOnly(init);
      if x.sentiment == Aggregates.Positive {
        assert PositiveOnly(data) == p + [x];
        assert (p + [x])[..|p|] == p;
      } else {
        assert PositiveOnly(data) == p;
        assert PositiveWords(data) == PositiveWords(init);
      }
    }
  }

  /** The positive reviews of `data`, in order. */
  function PositiveOnly(data: seq<Review>): seq<Review> {
    if data == [] then []
    else
      var x := data[|data| - 1];
      PositiveOnly(data[..|data| - 1]) + (if x.sentiment == Aggregates.Positive then [x] else [])
  }

  lemma TopWordsOnlyPositive(data: seq<Review>)
    ensures TopWordsOf(data) == TopWordsOf(PositiveOnly(data))
  {
    OnlyPositiveCount(data);
  }

  // ---------------------------------------------------------------- the dictionary as written

  /** A value of the source's `wordCount` object: a number, or the string that
      `+ 1` produces when the value read was not a number. */
  datatype JsCount = Number(n: nat) | Text(s: string)

  /** `String(Object) + "1"`, the first value stored under `constructor`. */
  const ObjectSourceOne := "function Object() { [native code] }1"

  /** `wordCount[w] = (wordCount[w] || 0) + 1` on the source's plain `{}`,
      whose keys fall back to `Object.prototype`. Reading `__proto__` yields
      `Object.prototype`, and storing the resulting string there is ignored;
      reading a missing `constructor` yields the `Object` function, so the
      stored value is the text of that function followed by `1`. */
  function BumpAsWritten(d: seq<(string, JsCount)>, w: string): seq<(string, JsCount)> {
    if d == [] then
      if w == "__proto__" then []
      else if w == "constructor" then [(w, Text(ObjectSourceOne))]
      else [(w, Number(1))]
    else if d[0].0 == w then
      match d[0].1
      case Number(n) => [(w, Number(n + 1))] + d[1..]
      case Text(t) => [(w, Text(t + "1"))] + d[1..]
    else [d[0]] + BumpAsWritten(d[1..], w)
  }

  function TallyAsWritten(ws: seq<string>): seq<(string, JsCount)> {
    if ws == [] then [] else BumpAsWritten(TallyAsWritten(ws[..|ws| - 1]), ws[|ws| - 1])
  }

  /** A positive review whose cleaned text is `constructor` (or `__proto__`)
      shows the difference: both words pass the word test, yet as written the
      first gets a string instead of the count 1 and the second no entry at
      all. */
  lemma PrototypeKeysMiscounted()
    ensures Kept("constructor") && Kept("__proto__")
    ensures TallyAsWritten(["constructor"]) == [("constructor", Text(ObjectSourceOne))]
    ensures TallyAsWritten(["__proto__"]) == []
  {
    assert ["constructor"][..0] == [];
    assert ["__proto__"][..0] == [];
    assert !AllDigits("constructor") by { assert !IsDigit("constructor"[0]); }
    assert !AllDigits("__proto__") by { assert !IsDigit("__proto__"[0]); }
  }

  /** The dictionary the model uses counts both words once. */
  lemma PrototypeKeysCounted()
    ensures Tally(["constructor"]) == [WordCount("constructor", 1)]
    ensures Tally(["__proto__"]) == [WordCount("__proto__", 1)]
  {
    assert ["constructor"][..0] == [];
    assert ["__proto__"][..0] == [];
  }
}
