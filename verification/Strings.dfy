/** String helpers that the dashboard takes from JavaScript's built-ins:
    `trim`, `split`, `join`, `toLowerCase`, `includes`, and the default
    (code-unit) string order that `Array.prototype.sort` uses. */
module Strings {

  /** The ASCII members of JavaScript's whitespace set. */
  predicate IsWhitespace(c: char) {
    c == ' ' || c == '\t' || c == '\n' || c == '\r' || c as int == 11 || c as int == 12
  }

  /** `s.trimStart()`: `s` without its leading whitespace. */
  function TrimStart(s: string): (r: string)
    ensures |r| <= |s|
  {
    if s != [] && IsWhitespace(s[0]) then TrimStart(s[1..]) else s
  }

  /** `s.trimEnd()`: `s` without its trailing whitespace. */
  function TrimEnd(s: string): (r: string)
    ensures |r| <= |s|
  {
    if s != [] && IsWhitespace(s[|s| - 1]) then TrimEnd(s[..|s| - 1]) else s
  }

  /** `s.trim()`: `s` without leading and trailing whitespace. */
  function Trim(s: string): (r: string)
    ensures |r| <= |s|
  {
    TrimEnd(TrimStart(s))
  }

  /** `trimStart` removes a whitespace prefix and stops at the first other character. */
  lemma {:induction false} TrimStartSpec(s: string)
    ensures var r := TrimStart(s);
      && r == s[|s| - |r|..]
      && (forall k :: 0 <= k < |s| - |r| ==> IsWhitespace(s[k]))
      && (r != [] ==> !IsWhitespace(r[0]))
  {
    if s != [] && IsWhitespace(s[0]) {
      TrimStartSpec(s[1..]);
      var r := TrimStart(s[1..]);
      assert forall k :: 1 <= k < |s| - |r| ==> s[k] == s[1..][k - 1];
    }
  }

  /** `trimEnd` removes a whitespace suffix and stops at the last other character. */
  lemma {:induction false} TrimEndSpec(s: string)
    ensures var r := TrimEnd(s);
      && r == s[..|r|]
      && (forall k :: |r| <= k < |s| ==> IsWhitespace(s[k]))
      && (r != [] ==> !IsWhitespace(r[|r| - 1]))
  {
    if s != [] && IsWhitespace(s[|s| - 1]) {
      TrimEndSpec(s[..|s| - 1]);
      var r := TrimEnd(s[..|s| - 1]);
      assert forall k :: |r| <= k < |s| - 1 ==> s[k] == s[..|s| - 1][k];
    }
  }

  /** A trimmed text neither starts nor ends with whitespace. */
  lemma TrimSpec(s: string)
    ensures var r := Trim(s);
      r != [] ==> !IsWhitespace(r[0]) && !IsWhitespace(r[|r| - 1])
  {
    var t := TrimStart(s);
    TrimStartSpec(s);
    TrimEndSpec(t);
    var r := TrimEnd(t);
    assert r != [] ==> r[0] == t[0];
  }

  /** Number of occurrences of `c` in `s`. */
  function CountChar(s: string, c: char): nat {
    if s == [] then 0
    else CountChar(s[..|s| - 1], c) + (if s[|s| - 1] == c then 1 else 0)
  }

  /** `xs.join(sep)` for a one-character separator. */
  function Join(xs: seq<string>, sep: char): string {
    if |xs| == 0 then []
    else if |xs| == 1 then xs[0]
    else Join(xs[..|xs| - 1], sep) + [sep] + xs[|xs| - 1]
  }

  /** Appending a character to the last piece appends it to the joined string. */
  lemma {:induction false} JoinExtendLast(xs: seq<string>, sep: char, c: char)
    requires |xs| >= 1
    ensures Join(xs[..|xs| - 1] + [xs[|xs| - 1] + [c]], sep) == Join(xs, sep) + [c]
  {
    var ys := xs[..|xs| - 1] + [xs[|xs| - 1] + [c]];
    assert ys[..|ys| - 1] == xs[..|xs| - 1];
  }

  /** Adding an empty last piece appends one separator. */
  lemma JoinAppendEmpty(xs: seq<string>, sep: char)
    requires |xs| >= 1
    ensures Join(xs + [[]], sep) == Join(xs, sep) + [sep]
  {
    assert (xs + [[]])[..|xs|] == xs;
  }

  /** `s.split(sep)` for a one-character separator: one more piece than
      there are separators. */
  function Split(s: string, sep: char): (r: seq<string>)
    ensures |r| == 1 + CountChar(s, sep)
  {
    if s == [] then [[]]
    else
      var init := Split(s[..|s| - 1], sep);
      var c := s[|s| - 1];
      if c == sep then init + [[]]
      else init[..|init| - 1] + [init[|init| - 1] + [c]]
  }

  /** No piece contains the separator. */
  lemma {:induction false} SplitPieces(s: string, sep: char)
    ensures forall i :: 0 <= i < |Split(s, sep)| ==> sep !in Split(s, sep)[i]
    decreases |s|
  {
    if s != [] {
      SplitPieces(s[..|s| - 1], sep);
    }
  }

  /** Joining the pieces with `sep` gives back `s`. */
  lemma {:induction false} JoinSplit(s: string, sep: char)
    ensures Join(Split(s, sep), sep) == s
    decreases |s|
  {
    if s != [] {
      var init := Split(s[..|s| - 1], sep);
      var c := s[|s| - 1];
      JoinSplit(s[..|s| - 1], sep);
      assert s == s[..|s| - 1] + [c];
      if c == sep {
        JoinAppendEmpty(init, sep);
      } else {
        JoinExtendLast(init, sep, c);
      }
    }
  }

  /** A string without the separator is a single piece. */
  lemma {:induction false} SplitNoSep(s: string, sep: char)
    requires sep !in s
    ensures Split(s, sep) == [s]
    decreases |s|
  {
    if s != [] {
      var init := s[..|s| - 1];
      assert s[|s| - 1] != sep;
      assert forall k :: 0 <= k < |init| ==> init[k] == s[k];
      SplitNoSep(init, sep);
      assert Split(s, sep) == [init + [s[|s| - 1]]];
      assert init + [s[|s| - 1]] == s;
    }
  }

  /** One more separator starts an empty piece. */
  lemma SplitSep(s: string, sep: char)
    ensures Split(s + [sep], sep) == Split(s, sep) + [[]]
  {
    assert (s + [sep])[..|s|] == s;
  }

  /** One more character that is not the separator extends the last piece. */
  lemma SplitOther(s: string, c: char, sep: char)
    requires c != sep
    ensures var x := Split(s, sep);
      Split(s + [c], sep) == x[..|x| - 1] + [x[|x| - 1] + [c]]
  {
    assert (s + [c])[..|s|] == s;
  }

  lemma ExtendLastConcat(x: seq<string>, y: seq<string>, c: char)
    requires y != []
    ensures var z := x + y;
      z[..|z| - 1] + [z[|z| - 1] + [c]] == x + (y[..|y| - 1] + [y[|y| - 1] + [c]])
  {
  }

  lemma SplitAppendSepStep(a: string, b0: string, sep: char)
    requires Split(a + [sep] + b0, sep) == Split(a, sep) + Split(b0, sep)
    ensures Split(a + [sep] + b0 + [sep], sep) == Split(a, sep) + Split(b0 + [sep], sep)
  {
    SplitSep(a + [sep] + b0, sep);
    SplitSep(b0, sep);
  }

  lemma SplitAppendOtherStep(a: string, b0: string, c: char, sep: char)
    requires c != sep
    requires Split(a + [sep] + b0, sep) == Split(a, sep) + Split(b0, sep)
    ensures Split(a + [sep] + b0 + [c], sep) == Split(a, sep) + Split(b0 + [c], sep)
  {
    var x := Split(a, sep);
    var y := Split(b0, sep);
    SplitOther(a + [sep] + b0, c, sep);
    SplitOther(b0, c, sep);
    ExtendLastConcat(x, y, c);
  }

  /** Splitting at one separator splits the two sides independently. */
  lemma {:induction false} SplitAppend(a: string, b: string, sep: char)
    ensures Split(a + [sep] + b, sep) == Split(a, sep) + Split(b, sep)
    decreases |b|
  {
    if b == [] {
      assert a + [sep] + b == a + [sep];
      SplitSep(a, sep);
    } else {
      var b0 := b[..|b| - 1];
      var c := b[|b| - 1];
      assert a + [sep] + b == a + [sep] + b0 + [c];
      assert b == b0 + [c];
      SplitAppend(a, b0, sep);
      if c == sep {
        SplitAppendSepStep(a, b0, sep);
      } else {
        SplitAppendOtherStep(a, b0, c, sep);
      }
    }
  }

  /** Splitting pieces joined by a separator none of them contains gives the pieces back. */
  lemma {:induction false} SplitJoin(xs: seq<string>, sep: char)
    requires xs != []
    requires forall i :: 0 <= i < |xs| ==> sep !in xs[i]
    ensures Split(Join(xs, sep), sep) == xs
    decreases |xs|
  {
    if |xs| == 1 {
      SplitNoSep(xs[0], sep);
    } else {
      var init, last := xs[..|xs| - 1], xs[|xs| - 1];
      SplitJoin(init, sep);
      SplitJoinStep(Join(init, sep), init, last, sep);
      JoinLast(xs, sep);
      InitLast(xs);
    }
  }

  /** A non-empty sequence is its front followed by its last element. */
  lemma InitLast<T>(xs: seq<T>)
    requires xs != []
    ensures xs[..|xs| - 1] + [xs[|xs| - 1]] == xs
  {
  }

  lemma JoinLast(xs: seq<string>, sep: char)
    requires |xs| >= 2
    ensures Join(xs, sep) == Join(xs[..|xs| - 1], sep) + [sep] + xs[|xs| - 1]
  {
  }

  lemma SplitJoinStep(j: string, init: seq<string>, last: string, sep: char)
    requires Split(j, sep) == init && sep !in last
    ensures Split(j + [sep] + last, sep) == init + [last]
  {
    SplitAppend(j, last, sep);
    SplitNoSep(last, sep);
  }

  /** A character in no piece, other than the separator, is not in the joined string. */
  lemma {:induction false} JoinExcludes(xs: seq<string>, sep: char, c: char)
    requires c != sep
    requires forall i :: 0 <= i < |xs| ==> c !in xs[i]
    ensures c !in Join(xs, sep)
    decreases |xs|
  {
    if |xs| >= 2 {
      JoinExcludes(xs[..|xs| - 1], sep, c);
    }
  }

  /** ASCII lower-casing of one character. */
  function LowerChar(c: char): char {
    if 'A' <= c <= 'Z' then (c as int + 32) as char else c
  }

  /** `s.toLowerCase()` restricted to ASCII letters. */
  function Lower(s: string): (r: string)
    ensures |r| == |s|
    ensures forall i :: 0 <= i < |s| ==> r[i] == LowerChar(s[i])
  {
    seq(|s|, i requires 0 <= i < |s| => LowerChar(s[i]))
  }

  /** `s` begins with `p`. */
  predicate StartsWith(s: string, p: string) {
    |p| <= |s| && s[..|p|] == p
  }

  /** `s.includes(sub)`: `sub` occurs in `s` at some position. */
  predicate Contains(s: string, sub: string)
    decreases |s|
  {
    StartsWith(s, sub) || (s != [] && Contains(s[1..], sub))
  }

  /** `sub` sits in `s` starting at index `k`. */
  predicate OccursAt(s: string, sub: string, k: int) {
    0 <= k && k + |sub| <= |s| && s[k..k + |sub|] == sub
  }

  /** `sub` occurs in `s` exactly when it sits there at some index. */
  lemma {:induction false} ContainsSpec(s: string, sub: string)
    ensures Contains(s, sub) <==> exists k :: OccursAt(s, sub, k)
    decreases |s|
  {
    if StartsWith(s, sub) {
      assert OccursAt(s, sub, 0);
    } else if s != [] {
      ContainsSpec(s[1..], sub);
      if exists k :: OccursAt(s[1..], sub, k) {
        var k :| OccursAt(s[1..], sub, k);
        assert s[k + 1..k + 1 + |sub|] == s[1..][k..k + |sub|];
        assert OccursAt(s, sub, k + 1);
      }
      if exists k :: OccursAt(s, sub, k) {
        var k :| OccursAt(s, sub, k);
        assert k != 0;
        assert s[1..][k - 1..k - 1 + |sub|] == s[k..k + |sub|];
        assert OccursAt(s[1..], sub, k - 1);
      }
    } else {
      assert forall k :: !OccursAt(s, sub, k);
    }
  }

  /** Lower-casing turns each upper-case ASCII letter into its lower-case
      letter, 32 code points on, changes no other character, and lower-casing
      again changes nothing. */
  lemma LowerSpec(s: string)
    ensures |Lower(s)| == |s|
    ensures forall i :: 0 <= i < |s| && 'A' <= s[i] <= 'Z' ==> Lower(s)[i] as int == s[i] as int + 32
    ensures forall i :: 0 <= i < |s| ==> !('A' <= Lower(s)[i] <= 'Z')
    ensures forall i :: 0 <= i < |s| && !('A' <= s[i] <= 'Z') ==> Lower(s)[i] == s[i]
    ensures Lower(Lower(s)) == Lower(s)
  {
  }

  /** The default string order of `Array.prototype.sort`: lexicographic by
      character, a proper prefix coming first. */
  predicate Less(a: string, b: string)
    decreases |a|
  {
    if a == [] then b != []
    else if b == [] then false
    else if a[0] != b[0] then a[0] < b[0]
    else Less(a[1..], b[1..])
  }

  lemma {:induction false} LessIrreflexive(a: string)
    ensures !Less(a, a)
    decreases |a|
  {
    if a != [] { LessIrreflexive(a[1..]); }
  }

  lemma {:induction false} LessTransitive(a: string, b: string, c: string)
    requires Less(a, b) && Less(b, c)
    ensures Less(a, c)
    decreases |a|
  {
    if a != [] && a[0] == b[0] && b[0] == c[0] {
      LessTransitive(a[1..], b[1..], c[1..]);
    }
  }

  lemma {:induction false} LessTotal(a: string, b: string)
    requires a != b
    ensures Less(a, b) || Less(b, a)
    decreases |a|
  {
    if a != [] && b != [] && a[0] == b[0] {
      assert a == [a[0]] + a[1..] && b == [b[0]] + b[1..];
      LessTotal(a[1..], b[1..]);
    }
  }

  lemma LessAsymmetric(a: string, b: string)
    requires Less(a, b)
    ensures !Less(b, a)
  {
    if Less(b, a) {
      LessTransitive(a, b, a);
      LessIrreflexive(a);
    }
  }

  /** The set of elements of a sequence. */
  function Elems(xs: seq<string>): set<string> {
    set x | x in xs
  }

  /** Strictly increasing, hence free of duplicates. */
  predicate StrictlySorted(xs: seq<string>) {
    forall i, j :: 0 <= i < j < |xs| ==> Less(xs[i], xs[j])
  }

  /** Inserts `x` into a strictly sorted sequence, unless it is already there. */
  function Insert(x: string, xs: seq<string>): (r: seq<string>)
    requires StrictlySorted(xs)
    ensures StrictlySorted(r)
    ensures Elems(r) == Elems(xs) + {x}
    decreases |xs|
  {
    if xs == [] then [x]
    else if x == xs[0] then
      assert Elems(xs) == Elems(xs) + {x};
      xs
    else if Less(x, xs[0]) then
      var r := [x] + xs;
      forall i, j | 0 <= i < j < |r| ensures Less(r[i], r[j]) {
        if i == 0 && j > 1 { LessTransitive(x, xs[0], xs[j - 1]); }
      }
      r
    else
      LessTotal(x, xs[0]);
      var rest := Insert(x, xs[1..]);
      assert Elems(xs) == {xs[0]} + Elems(xs[1..]);
      var r := [xs[0]] + rest;
      assert Elems(r) == {xs[0]} + Elems(rest);
      forall i, j | 0 <= i < j < |r| ensures Less(r[i], r[j]) {
        if i == 0 {
          assert r[j] in Elems(rest);
          assert r[j] == x || r[j] in xs[1..];
        }
      }
      r
  }

  /** `[...new Set(xs)].sort()`: the distinct elements of `xs` in increasing order. */
  function SortedDistinct(xs: seq<string>): (r: seq<string>)
    ensures StrictlySorted(r)
    ensures Elems(r) == Elems(xs)
  {
    if xs == [] then []
    else
      var r := Insert(xs[|xs| - 1], SortedDistinct(xs[..|xs| - 1]));
      assert Elems(xs) == Elems(xs[..|xs| - 1]) + {xs[|xs| - 1]} by {
        assert xs == xs[..|xs| - 1] + [xs[|xs| - 1]];
      }
      r
  }

  /** A strictly sorted sequence is determined by its elements: the sorted,
      duplicate-free list of a set of names is unique. */
  lemma {:induction false} StrictlySortedUnique(a: seq<string>, b: seq<string>)
    requires StrictlySorted(a) && StrictlySorted(b)
    requires Elems(a) == Elems(b)
    ensures a == b
    decreases |a|
  {
    assert b != [] ==> b[0] in Elems(b);
    if a != [] {
      assert a[0] in Elems(b);
      assert b != [];
      assert b[0] in Elems(a);
      if a[0] != b[0] {
        var i :| 0 <= i < |a| && a[i] == b[0];
        var j :| 0 <= j < |b| && b[j] == a[0];
        assert Less(a[0], b[0]);
        assert Less(b[0], a[0]);
        LessAsymmetric(a[0], b[0]);
      }
      assert a[0] !in a[1..] by {
        forall k | 1 <= k < |a| ensures a[k] != a[0] { LessIrreflexive(a[0]); }
      }
      assert b[0] !in b[1..] by {
        forall k | 1 <= k < |b| ensures b[k] != b[0] { LessIrreflexive(b[0]); }
      }
      assert Elems(a) == {a[0]} + Elems(a[1..]);
      assert Elems(b) == {b[0]} + Elems(b[1..]);
      assert Elems(a[1..]) == Elems(b[1..]);
      StrictlySortedUnique(a[1..], b[1..]);
    }
  }
}
